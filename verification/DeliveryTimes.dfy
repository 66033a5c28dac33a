/** When messages are transmitted again, and when they are given up: real times, seen through the 32-bit
    clock that each task reads. */
module DeliveryTimes {
  import opened Bytes
  import opened Events
  import opened History
  import opened Pending
  import opened Delivery
  import opened DeliveryTable
  import opened DeliveryRetries
  import Frame

  // ---------- clocked runs

  /** The clock reading that a step uses, if it uses one. */
  function Reading(step: Step): Option<u32> {
    match step
    case SendEvent(_, _, now) => Some(now)
    case SendOther(_, _, _, _, now) => Some(now)
    case RetrySlot(_, now) => Some(now)
    case _ => None
  }

  /** times[k] is the real time, in milliseconds, at which step k reads the clock. */
  predicate Clocked(steps: seq<Step>, times: seq<nat>) {
    && |times| == |steps|
    && forall k :: 0 <= k < |steps| && Reading(steps[k]).Some? ==> Reading(steps[k]).value == times[k] % U32_COUNT
  }

  /** When a message was first transmitted and when last, by the clocks of those steps. */
  datatype Sent = Sent(first: Option<nat>, last: Option<nat>)

  function Onward(before: Sent, sent: bool, t: nat): Sent {
    if sent then Sent(if before.first.None? then Some(t) else before.first, Some(t)) else before
  }

  function SentAt(w: World, s: Setup, steps: seq<Step>, times: seq<nat>, ticket: nat): Sent
    requires Shape(w) && |times| == |steps|
  {
    if steps == [] then Sent(None, None) else
      var n := |steps| - 1;
      var sent := Transmits(Run(w, s, steps[..n]), s, steps[n], ticket);
      Onward(SentAt(w, s, steps[..n], times[..n], ticket), sent, times[n])
  }

  /** The pass gives the message in that slot up. */
  predicate GivesUp(w: World, s: Setup, step: Step, ticket: nat)
    requires Shape(w)
  {
    && step.RetrySlot? && step.slot < |w.link.slots| && w.books.ticket[step.slot] == ticket
    && Judge(w.link.slots[step.slot], step.now, s.timing).GiveUp?
  }

  /** No pass looks at a message with a clock reading older than the message's last transmission. */
  predicate NeverStale(w: World, s: Setup, steps: seq<Step>, times: seq<nat>)
    requires Shape(w) && |times| == |steps|
  {
    forall k :: 0 <= k < |steps| ==> NotStale(w, s, steps, times, k)
  }

  predicate NotStale(w: World, s: Setup, steps: seq<Step>, times: seq<nat>, k: nat)
    requires Shape(w) && |times| == |steps| && k < |steps|
  {
    var v := Run(w, s, steps[..k]);
    steps[k].RetrySlot? && steps[k].slot < |v.link.slots| ==>
      var last := SentAt(w, s, steps[..k], times[..k], v.books.ticket[steps[k].slot]).last;
      last.Some? ==> last.value <= times[k]
  }

  // ---------- what a slot remembers

  /** The slot of a waiting message holds the reading of its last transmission; with readings in order, every
      retry cost it more than one timeout. */
  predicate Remembers(slot: Slot, at: Sent, c: Config, ordered: bool) {
    && at.first.Some? && at.last.Some? && slot.sentTime == at.last.value % U32_COUNT
    && (ordered ==> at.last.value - at.first.value >= Spent(slot.retryCount, c))
  }

  /** The least time that n timeouts take. */
  function Spent(n: nat, c: Config): nat {
    n * (c.ackTimeoutMs + 1)
  }

  lemma OneMoreTimeout(n: nat, c: Config)
    ensures Spent(n + 1, c) == Spent(n, c) + c.ackTimeoutMs + 1 && Spent(0, c) == 0
  {
  }

  lemma SpentIs(n: nat, c: Config)
    ensures Spent(n, c) == n * (c.ackTimeoutMs + 1)
  {
  }

  /** All waiting messages with this ticket. */
  predicate Timed(v: World, ticket: nat, at: Sent, c: Config, ordered: bool)
    requires Shape(v)
  {
    && (ticket >= v.books.next ==> at == Sent(None, None))
    && (forall i :: 0 <= i < |v.link.slots| && v.link.slots[i].active && v.books.ticket[i] == ticket ==>
          Remembers(v.link.slots[i], at, c, ordered))
  }

  lemma OverdueReally(slot: Slot, last: nat, t: nat, c: Config)
    requires slot.sentTime == last % U32_COUNT && Overdue(slot, t % U32_COUNT, c) && last <= t
    ensures t - last > c.ackTimeoutMs
  {
    WrapsWithin(last, t);
  }

  lemma WrapsWithin(a: nat, b: nat)
    requires a <= b
    ensures (b % U32_COUNT - a % U32_COUNT) % U32_COUNT == (b - a) % U32_COUNT <= b - a
  {
    var p, q := b / U32_COUNT, a / U32_COUNT;
    assert b == U32_COUNT * p + b % U32_COUNT && a == U32_COUNT * q + a % U32_COUNT;
    SameRest(b % U32_COUNT - a % U32_COUNT, b - a, q - p);
  }

  lemma SameRest(a: int, b: int, k: int)
    requires a == b + U32_COUNT * k
    ensures a % U32_COUNT == b % U32_COUNT
  {
  }

  // ---------- no two waiting messages share a ticket

  predicate Distinct(w: World) {
    && Shape(w)
    && (forall i :: 0 <= i < |w.link.slots| ==> w.books.ticket[i] < w.books.next)
    && forall i, j :: 0 <= i < j < |w.link.slots| && w.link.slots[i].active && w.link.slots[j].active ==>
         w.books.ticket[i] != w.books.ticket[j]
  }

  lemma DistinctStep(w: World, s: Setup, step: Step)
    requires Distinct(w)
    ensures Distinct(Apply(w, s, step))
  {
    ApplyKeepsShape(w, s, step);
    match step {
      case SendEvent(k, radioOk, now) =>
        if k < |w.hand| {
          DistinctSend(w, MSG_DETECTION_EVENT, Serialize(w.hand[k]), true, radioOk, now);
        }
      case SendOther(msgType, payload, requireAck, radioOk, now) =>
        if msgType != MSG_DETECTION_EVENT {
          DistinctSend(w, msgType, payload, requireAck, radioOk, now);
        }
      case _ => DistinctRest(w, s, step);
    }
  }

  lemma DistinctRest(w: World, s: Setup, step: Step)
    requires Distinct(w) && !step.SendEvent? && !step.SendOther?
    ensures Distinct(Apply(w, s, step))
  {
    hide Log, TimeSync, FastForward, MarkSynced, Serialize, NextUnsynced, Since, CountActive, EventIdIn;
    ApplyKeepsShape(w, s, step);
  }

  lemma DistinctSend(w: World, msgType: byte, payload: seq<byte>, requireAck: bool, radioOk: bool, now: u32)
    requires Distinct(w)
    ensures Distinct(SendMessage(w, msgType, payload, requireAck, radioOk, now))
  {
    hide Frame.Encode, Serialize;
    FreesOnly(w, msgType, payload, requireAck, radioOk, now);
    DistinctTaken(w, msgType, payload, requireAck, now);
    hide SendMessage, Send;
  }

  lemma DistinctTaken(w: World, msgType: byte, payload: seq<byte>, requireAck: bool, now: u32)
    requires Distinct(w)
    ensures Distinct(SendMessage(w, msgType, payload, requireAck, true, now))
  {
    hide Frame.Encode, Serialize, Clear, Delivery.FailureFrees;
  }

  lemma {:induction false} AlwaysDistinct(w: World, s: Setup, steps: seq<Step>)
    requires Distinct(w)
    ensures Distinct(Run(w, s, steps))
  {
    if steps != [] {
      AlwaysDistinct(w, s, steps[..|steps| - 1]);
      DistinctStep(Run(w, s, steps[..|steps| - 1]), s, steps[|steps| - 1]);
    }
  }

  // ---------- what every step keeps

  /** With readings in order, a pass does not look at this message from before its last transmission. */
  predicate Ordered(v: World, step: Step, t: nat, ticket: nat, at: Sent)
    requires Shape(v)
  {
    step.RetrySlot? && step.slot < |v.link.slots| && v.books.ticket[step.slot] == ticket && at.last.Some? ==>
      at.last.value <= t
  }

  lemma TimedStep(v: World, s: Setup, step: Step, t: nat, ticket: nat, at: Sent, ordered: bool)
    requires Distinct(v) && Timed(v, ticket, at, s.timing, ordered)
    requires Reading(step).Some? ==> Reading(step).value == t % U32_COUNT
    requires ordered ==> Ordered(v, step, t, ticket, at)
    ensures
      var u := Apply(v, s, step);
      Shape(u) && Timed(u, ticket, Onward(at, Transmits(v, s, step, ticket), t), s.timing, ordered)
  {
    ApplyKeepsShape(v, s, step);
    hide Timed, Send;
    match step {
      case SendEvent(k, radioOk, now) =>
        if k < |v.hand| {
          TimedSend(v, s, MSG_DETECTION_EVENT, Serialize(v.hand[k]), true, radioOk, now, t, ticket, at, ordered);
        }
      case SendOther(msgType, payload, requireAck, radioOk, now) =>
        if msgType != MSG_DETECTION_EVENT {
          TimedSend(v, s, msgType, payload, requireAck, radioOk, now, t, ticket, at, ordered);
        }
      case RetrySlot(i, now) =>
        if i < |v.link.slots| {
          TimedRetry(v, s, i, now, t, ticket, at, ordered);
        }
      case _ => TimedRest(v, s, step, ticket, at, ordered);
    }
  }

  lemma TimedRest(v: World, s: Setup, step: Step, ticket: nat, at: Sent, ordered: bool)
    requires Distinct(v) && Timed(v, ticket, at, s.timing, ordered)
    requires !step.SendEvent? && !step.SendOther? && !step.RetrySlot?
    ensures Shape(Apply(v, s, step)) && Timed(Apply(v, s, step), ticket, at, s.timing, ordered)
  {
    hide Log, TimeSync, FastForward, MarkSynced, Serialize, NextUnsynced, Since, CountActive, EventIdIn, Spent;
    ApplyKeepsShape(v, s, step);
  }

  lemma TimedSend(v: World, s: Setup, msgType: byte, payload: seq<byte>, requireAck: bool, radioOk: bool, now: u32,
      t: nat, ticket: nat, at: Sent, ordered: bool)
    requires Distinct(v) && Timed(v, ticket, at, s.timing, ordered) && now == t % U32_COUNT
    ensures
      var sent := ticket == v.books.next && Send(v.link, msgType, payload, requireAck, radioOk, now).onAir.Some?;
      var u := SendMessage(v, msgType, payload, requireAck, radioOk, now);
      Shape(u) && Timed(u, ticket, Onward(at, sent, t), s.timing, ordered)
  {
    var taken := SendMessage(v, msgType, payload, requireAck, true, now);
    var u := SendMessage(v, msgType, payload, requireAck, radioOk, now);
    TimedTaken(v, s, msgType, payload, requireAck, now, t, ticket, at, ordered);
    FreesOnly(v, msgType, payload, requireAck, radioOk, now);
    hide SendMessage, Send, Frame.Encode, Serialize, Distinct, Remembers, Onward;
    assert Shape(u);
  }

  /** What the radio refuses is what it would have taken, with one slot fewer waiting. */
  lemma FreesOnly(v: World, msgType: byte, payload: seq<byte>, requireAck: bool, radioOk: bool, now: u32)
    requires Shape(v)
    ensures
      var taken := SendMessage(v, msgType, payload, requireAck, true, now);
      var u := SendMessage(v, msgType, payload, requireAck, radioOk, now);
      && Shape(u) && Shape(taken) && |u.link.slots| == |taken.link.slots|
      && u.books.ticket == taken.books.ticket && u.books.next == taken.books.next
      && (forall i :: 0 <= i < |u.link.slots| ==>
            u.link.slots[i] == taken.link.slots[i] || !u.link.slots[i].active)
      && Send(v.link, msgType, payload, requireAck, radioOk, now).onAir
          == Send(v.link, msgType, payload, requireAck, true, now).onAir
  {
    hide Frame.Encode, Serialize;
  }

  lemma TimedTaken(v: World, s: Setup, msgType: byte, payload: seq<byte>, requireAck: bool, now: u32, t: nat,
      ticket: nat, at: Sent, ordered: bool)
    requires Distinct(v) && Timed(v, ticket, at, s.timing, ordered) && now == t % U32_COUNT
    ensures
      var sent := ticket == v.books.next && Send(v.link, msgType, payload, requireAck, true, now).onAir.Some?;
      var u := SendMessage(v, msgType, payload, requireAck, true, now);
      Shape(u) && Timed(u, ticket, Onward(at, sent, t), s.timing, ordered)
  {
    OneMoreTimeout(0, s.timing);
    hide Frame.Encode, Serialize, Spent, Clear, Delivery.FailureFrees;
  }

  lemma TimedRetry(v: World, s: Setup, i: nat, now: u32, t: nat, ticket: nat, at: Sent, ordered: bool)
    requires Distinct(v) && Timed(v, ticket, at, s.timing, ordered) && now == t % U32_COUNT
    requires i < |v.link.slots| && (ordered ==> Ordered(v, RetrySlot(i, now), t, ticket, at))
    ensures
      var u := Apply(v, s, RetrySlot(i, now));
      Shape(u) && Timed(u, ticket, Onward(at, Transmits(v, s, RetrySlot(i, now), ticket), t), s.timing, ordered)
  {
    var slot := v.link.slots[i];
    OneMoreTimeout(slot.retryCount, s.timing);
    if v.books.ticket[i] == ticket && Judge(slot, now, s.timing).Retry? && ordered {
      OverdueReally(slot, at.last.value, t, s.timing);
    }
    hide Overdue, Spent;
  }

  lemma {:induction false} AlwaysTimed(w: World, s: Setup, steps: seq<Step>, times: seq<nat>, ticket: nat,
      ordered: bool)
    requires Initial(w) && Clocked(steps, times) && ticket >= w.books.next
    requires ordered ==> NeverStale(w, s, steps, times)
    ensures Timed(Run(w, s, steps), ticket, SentAt(w, s, steps, times, ticket), s.timing, ordered)
  {
    if steps != [] {
      var n := |steps| - 1;
      ClockedInit(w, s, steps, times);
      AlwaysTimed(w, s, steps[..n], times[..n], ticket, ordered);
      assert Distinct(w);
      AlwaysDistinct(w, s, steps[..n]);
      var at := SentAt(w, s, steps[..n], times[..n], ticket);
      if ordered {
        LastOrdered(w, s, steps, times, ticket);
      }
      Unfold(w, s, steps, times, ticket);
      hide Run, SentAt, Timed, Distinct, Transmits, Apply, Ordered, NeverStale, Initial;
      TimedStep(Run(w, s, steps[..n]), s, steps[n], times[n], ticket, at, ordered);
    }
  }

  lemma Unfold(w: World, s: Setup, steps: seq<Step>, times: seq<nat>, ticket: nat)
    requires Shape(w) && steps != [] && |times| == |steps|
    ensures
      var n := |steps| - 1;
      var v := Run(w, s, steps[..n]);
      && Run(w, s, steps) == Apply(v, s, steps[n])
      && SentAt(w, s, steps, times, ticket)
          == Onward(SentAt(w, s, steps[..n], times[..n], ticket), Transmits(v, s, steps[n], ticket), times[n])
  {
    hide Apply, Transmits;
  }

  lemma LastOrdered(w: World, s: Setup, steps: seq<Step>, times: seq<nat>, ticket: nat)
    requires Shape(w) && steps != [] && |times| == |steps| && NeverStale(w, s, steps, times)
    ensures
      var n := |steps| - 1;
      Ordered(Run(w, s, steps[..n]), steps[n], times[n], ticket, SentAt(w, s, steps[..n], times[..n], ticket))
  {
    assert NotStale(w, s, steps, times, |steps| - 1);
    hide Run, SentAt;
  }

  lemma ClockedInit(w: World, s: Setup, steps: seq<Step>, times: seq<nat>)
    requires Shape(w) && steps != [] && Clocked(steps, times)
    ensures var n := |steps| - 1;
      Clocked(steps[..n], times[..n]) && (NeverStale(w, s, steps, times) ==> NeverStale(w, s, steps[..n], times[..n]))
  {
    var n := |steps| - 1;
    if NeverStale(w, s, steps, times) {
      forall k | 0 <= k < n
        ensures NotStale(w, s, steps[..n], times[..n], k)
      {
        assert NotStale(w, s, steps, times, k);
        assert steps[..n][..k] == steps[..k] && times[..n][..k] == times[..k];
      }
    }
  }

  // ---------- transmissions

  /** The n-th step, taken after the others, transmits a message again. */
  predicate Retransmits(w: World, s: Setup, steps: seq<Step>, times: seq<nat>, ticket: nat)
    requires Shape(w) && |times| == |steps|
  {
    steps != [] &&
    var n := |steps| - 1;
    Transmits(Run(w, s, steps[..n]), s, steps[n], ticket) && SentAt(w, s, steps[..n], times[..n], ticket).last.Some?
  }

  /** In every run: a message that is transmitted again has waited more than the timeout since its last
      transmission exactly if the pass does not read the clock from before it. */
  lemma RetransmittedLateIff(w: World, s: Setup, steps: seq<Step>, times: seq<nat>, ticket: nat)
    requires Initial(w) && Clocked(steps, times) && ticket >= w.books.next && Retransmits(w, s, steps, times, ticket)
    ensures
      var n := |steps| - 1;
      var last := SentAt(w, s, steps[..n], times[..n], ticket).last.value;
      times[n] - last > s.timing.ackTimeoutMs <==> times[n] >= last
  {
    var n := |steps| - 1;
    ClockedInit(w, s, steps, times);
    AlwaysTimed(w, s, steps[..n], times[..n], ticket, false);
    var v, at := Run(w, s, steps[..n]), SentAt(w, s, steps[..n], times[..n], ticket);
    hide Run, SentAt, Initial;
    if times[n] >= at.last.value {
      OverdueReally(v.link.slots[steps[n].slot], at.last.value, times[n], s.timing);
    }
  }

  /** In every run: a pass that looks at a waiting message with a clock reading from after its last transmission,
      and within one round of the clock, transmits it or gives it up exactly if more than the timeout has
      passed. */
  lemma ActedOnIff(w: World, s: Setup, steps: seq<Step>, times: seq<nat>, i: nat, now: u32)
    requires Initial(w) && Clocked(steps, times) && steps != [] && steps[|steps| - 1] == RetrySlot(i, now)
    requires i < |w.link.slots| && Run(w, s, steps[..|steps| - 1]).link.slots[i].active
    ensures
      var n := |steps| - 1;
      var v := Run(w, s, steps[..n]);
      var ticket := v.books.ticket[i];
      var last := SentAt(w, s, steps[..n], times[..n], ticket).last;
      ticket >= w.books.next && last.Some? && last.value <= times[n] < last.value + U32_COUNT ==>
        (Transmits(v, s, steps[n], ticket) || GivesUp(v, s, steps[n], ticket)
         <==> times[n] - last.value > s.timing.ackTimeoutMs)
  {
    var n := |steps| - 1;
    var v := Run(w, s, steps[..n]);
    var ticket := v.books.ticket[i];
    hide Run, SentAt, Transmits, GivesUp, Timed;
    if ticket >= w.books.next {
      ClockedInit(w, s, steps, times);
      AlwaysTimed(w, s, steps[..n], times[..n], ticket, false);
      hide Initial;
      ActedStep(v, s, i, now, times[n], SentAt(w, s, steps[..n], times[..n], ticket));
    }
  }

  lemma ActedStep(v: World, s: Setup, i: nat, now: u32, t: nat, at: Sent)
    requires Shape(v) && i < |v.link.slots| && v.link.slots[i].active && now == t % U32_COUNT
    requires Timed(v, v.books.ticket[i], at, s.timing, false)
    ensures
      var ticket := v.books.ticket[i];
      at.last.Some? && at.last.value <= t < at.last.value + U32_COUNT ==>
        (Transmits(v, s, RetrySlot(i, now), ticket) || GivesUp(v, s, RetrySlot(i, now), ticket)
         <==> t - at.last.value > s.timing.ackTimeoutMs)
  {
    if at.last.Some? && at.last.value <= t {
      WrapsWithin(at.last.value, t);
    }
    hide Spent;
  }

  /** In every run where no pass reads the clock from before a message's last transmission, a message is given
      up only after all its transmissions and all their timeouts. */
  lemma GivenUpLate(w: World, s: Setup, steps: seq<Step>, times: seq<nat>, ticket: nat)
    requires Initial(w) && Clocked(steps, times) && NeverStale(w, s, steps, times) && NeverOverrun(w, s, steps)
    requires ticket >= w.books.next && steps != []
    requires GivesUp(Run(w, s, steps[..|steps| - 1]), s, steps[|steps| - 1], ticket)
    ensures
      var n := |steps| - 1;
      var first := SentAt(w, s, steps[..n], times[..n], ticket).first;
      && first.Some? && times[n] - first.value >= (s.timing.maxRetryCount + 1) * (s.timing.ackTimeoutMs + 1)
      && Transmissions(w, s, steps[..n], ticket) == s.timing.maxRetryCount + 1
  {
    hide Run, SentAt, NeverStale, Transmissions, NeverOverrun, Clocked, GivesUp, Timed, Counted, Ordered, Initial;
    var n := |steps| - 1;
    InitialShape(w);
    ClockedInit(w, s, steps, times);
    LastReading(w, s, steps, times, ticket);
    LastOrdered(w, s, steps, times, ticket);
    OverrunInit(w, s, steps);
    AlwaysTimed(w, s, steps[..n], times[..n], ticket, true);
    TransmissionsBounded(w, s, steps[..n], ticket);
    LastTimeout(Run(w, s, steps[..n]), s, steps[n], times[n], ticket, SentAt(w, s, steps[..n], times[..n], ticket),
                Transmissions(w, s, steps[..n], ticket));
  }

  lemma InitialShape(w: World)
    requires Initial(w)
    ensures Shape(w)
  {
  }

  lemma LastReading(w: World, s: Setup, steps: seq<Step>, times: seq<nat>, ticket: nat)
    requires Shape(w) && Clocked(steps, times) && steps != []
    requires GivesUp(Run(w, s, steps[..|steps| - 1]), s, steps[|steps| - 1], ticket)
    ensures steps[|steps| - 1].RetrySlot? && |times| == |steps|
    ensures steps[|steps| - 1].now == times[|steps| - 1] % U32_COUNT
  {
    hide Run;
  }

  lemma OverrunInit(w: World, s: Setup, steps: seq<Step>)
    requires Shape(w) && steps != [] && NeverOverrun(w, s, steps)
    ensures NeverOverrun(w, s, steps[..|steps| - 1])
  {
    var n := |steps| - 1;
    assert forall k :: 0 <= k < n ==> steps[..n][..k] == steps[..k];
    hide Run;
  }

  lemma LastTimeout(v: World, s: Setup, step: Step, t: nat, ticket: nat, at: Sent, sent: nat)
    requires Shape(v) && Timed(v, ticket, at, s.timing, true) && Counted(v, s.timing, ticket, sent)
    requires step.RetrySlot? && step.now == t % U32_COUNT
    requires GivesUp(v, s, step, ticket) && Ordered(v, step, t, ticket, at)
    ensures at.first.Some? && t - at.first.value >= (s.timing.maxRetryCount + 1) * (s.timing.ackTimeoutMs + 1)
    ensures sent == s.timing.maxRetryCount + 1
  {
    var slot := v.link.slots[step.slot];
    OverdueReally(slot, at.last.value, t, s.timing);
    OneMoreTimeout(slot.retryCount, s.timing);
    SpentIs(s.timing.maxRetryCount + 1, s.timing);
    hide Overdue, Spent;
  }

  // ---------- a stale reading

  const ONE_SLOT := World(History([Event(1, 5, 1, 3, 0, 0)], 1, 1), Link([Slot(false, 0, 0, 0, 0, [])], 0), [], [],
                          Books([0], 1, 1, 0, 0, 0, 0, 0, 0))

  /** A pass reads the clock once, before it takes the lock of any slot. If it read 100 and a message is sent at
      101 before it comes to that slot, it takes the message for overdue and transmits it again at once. */
  lemma StaleReadingRetransmits()
    ensures
      var s := Setup(10, Config(6000, 3));
      var steps, times: seq<nat> := [FetchUnsynced, SendEvent(0, true, 101), RetrySlot(0, 100)], [101, 101, 100];
      && Initial(ONE_SLOT) && Clocked(steps, times)
      && Retransmits(ONE_SLOT, s, steps, times, 1) && SentAt(ONE_SLOT, s, steps[..2], times[..2], 1).last == Some(101)
  {
    var s := Setup(10, Config(6000, 3));
    var e := Event(1, 5, 1, 3, 0, 0);
    var a, b, c := FetchUnsynced, SendEvent(0, true, 101), RetrySlot(0, 100);
    var steps, times: seq<nat> := [a, b, c], [101, 101, 100];
    FetchedOne(s);
    StaleStep(ONE_SLOT.(hand := [e]), s);
    assert steps[..2] == [a, b] && times[..2] == [101, 101] && [a] + [b] == [a, b] && [] + [a] == [a];
    assert [a, b][..1] == [a];
    hide Transmits, Apply;
    RunSnoc(ONE_SLOT, s, [], a);
    RunSnoc(ONE_SLOT, s, [a], b);
    hide Run;
    assert SentAt(ONE_SLOT, s, [a, b], [101, 101], 1).last == Some(101);
  }

  lemma FetchedOne(s: Setup)
    ensures Apply(ONE_SLOT, s, FetchUnsynced) == ONE_SLOT.(hand := [Event(1, 5, 1, 3, 0, 0)])
  {
    var e := Event(1, 5, 1, 3, 0, 0);
    OneUnsynced(e);
    hide NextUnsynced, Apply;
    Fetched(ONE_SLOT, s, e);
    assert [] + [e] == [e];
  }

  lemma Fetched(w: World, s: Setup, e: Event)
    requires Shape(w) && NextUnsynced(w.hist.events) == Some(e)
    ensures Apply(w, s, FetchUnsynced) == w.(hand := w.hand + [e])
  {
  }

  lemma OneUnsynced(e: Event)
    requires !e.IsSynced()
    ensures NextUnsynced([e]) == Some(e)
  {
    assert [e][..0] == [];
  }

  lemma StaleStep(w: World, s: Setup)
    requires w == ONE_SLOT.(hand := [Event(1, 5, 1, 3, 0, 0)]) && s.timing == Config(6000, 3)
    ensures Transmits(w, s, SendEvent(0, true, 101), 1)
    ensures Shape(Apply(w, s, SendEvent(0, true, 101)))
    ensures Transmits(Apply(w, s, SendEvent(0, true, 101)), s, RetrySlot(0, 100), 1)
  {
    hide Frame.Encode, Serialize;
    assert FirstFree(w.link.slots) == 0;
  }
}
