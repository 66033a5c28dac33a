/** What every interleaving of the delivery tasks keeps about the pending table: one slot a number,
    every slot freed for its own message, and no message unaccounted for. */
module DeliveryTable {
  import opened Bytes
  import opened Events
  import opened History
  import opened Pending
  import opened Delivery
  import Frame

  // ---------- the invariant

  predicate Shape(w: World) {
    |w.books.ticket| == |w.link.slots|
  }

  function NumberOf(ticket: nat, base: nat): u16
    requires base <= ticket
  {
    (ticket - base) % U16_COUNT
  }

  predicate SlotsBooked(w: World)
    requires Shape(w)
  {
    var t, b := w.link.slots, w.books;
    && (forall i :: 0 <= i < |t| ==> b.ticket[i] < b.next)
    && (forall i :: 0 <= i < |t| && t[i].active ==>
        b.base <= b.ticket[i] && t[i].seqNum == NumberOf(b.ticket[i], b.base))
    && (forall i, j :: 0 <= i < j < |t| && t[i].active && t[j].active ==> b.ticket[i] != b.ticket[j])
  }

  predicate TaskBooked(a: AckTask, w: World)
    requires Shape(w)
  {
    && a.slot < |w.link.slots|
    && a.base <= a.ticket <= w.books.ticket[a.slot]
    && a.seqNum == NumberOf(a.ticket, a.base)
    && a.base <= w.books.base
    && (a.base < w.books.base ==> a.ticket < w.books.base)
  }

  predicate Ledger(w: World) {
    && Shape(w)
    && w.books.base <= w.books.next
    && w.link.txSeqNum == NumberOf(w.books.next, w.books.base)
    && SlotsBooked(w)
    && forall k :: 0 <= k < |w.acks| ==> TaskBooked(w.acks[k], w)
  }

  /** At most limit numbers have been used since any message still waiting, or still in the gap of
      its ACK, took its own. */
  predicate Recent(w: World, limit: nat)
    requires Shape(w)
  {
    && (forall i :: 0 <= i < |w.link.slots| && w.link.slots[i].active ==> w.books.next - w.books.ticket[i] <= limit)
    && (forall k :: 0 <= k < |w.acks| && w.acks[k].base == w.books.base ==> w.books.next - w.acks[k].ticket <= limit)
  }

  /** The one assumption: nothing is outstanding for 65536 sends. */
  predicate NotOverrun(w: World, step: Step)
    requires Shape(w)
  {
    step.SendEvent? || step.SendOther? ==> Recent(w, U16_COUNT - 1)
  }

  lemma InitialLedger(w: World)
    requires Initial(w)
    ensures Ledger(w) && Recent(w, U16_COUNT)
  {
  }

  // ---------- it holds in every state

  lemma LedgerKept(w: World, s: Setup, step: Step)
    requires Ledger(w) && Recent(w, U16_COUNT) && NotOverrun(w, step)
    ensures Ledger(Apply(w, s, step)) && Recent(Apply(w, s, step), U16_COUNT)
  {
    assert Shape(w);
    hide Ledger, Recent, NothingNew, LookUp, Log, TimeSync, FastForward, MarkSynced;
    var v := Apply(w, s, step);
    match step {
      case SendEvent(k, radioOk, now) =>
        if k < |w.hand| {
          SendKeepsLedger(w, MSG_DETECTION_EVENT, Serialize(w.hand[k]), true, radioOk, now);
        }
      case SendOther(msgType, payload, requireAck, radioOk, now) =>
        if msgType != MSG_DETECTION_EVENT {
          SendKeepsLedger(w, msgType, payload, requireAck, radioOk, now);
        }
      case AckArrive(seqNum) => ArriveKeepsLedger(w, s, seqNum);
      case AckMark(k) => MarkKeepsLedger(w, s, k);
      case Reconnect => ReconnectKeepsLedger(w, s);
      case _ =>
        OtherStepsAddNothing(w, s, step);
        FreedKeepsLedger(w, v);
    }
  }

  lemma OtherStepsAddNothing(w: World, s: Setup, step: Step)
    requires Shape(w)
    requires step.LogEvent? || step.SkipIds? || step.SyncTime? || step.FetchUnsynced? || step.FetchSince?
             || step.RetrySlot? || step.AckFinish? || step.AckDrop? || step.Nack? || step.Disconnect?
    ensures NothingNew(w, Apply(w, s, step))
  {
    hide Log, TimeSync, FastForward;
  }

  lemma MarkKeepsLedger(w: World, s: Setup, k: nat)
    requires Ledger(w) && Recent(w, U16_COUNT)
    ensures Ledger(Apply(w, s, AckMark(k))) && Recent(Apply(w, s, AckMark(k)), U16_COUNT)
  {
    hide MarkSynced;
  }

  /** v is w with no slot filled and some tasks gone. */
  predicate NothingNew(w: World, v: World)
    requires Shape(w)
  {
    && Shape(v) && |v.link.slots| == |w.link.slots| && v.link.txSeqNum == w.link.txSeqNum
    && v.books.ticket == w.books.ticket && v.books.next == w.books.next && v.books.base == w.books.base
    && (forall i :: 0 <= i < |w.link.slots| ==>
          v.link.slots[i].seqNum == w.link.slots[i].seqNum && (v.link.slots[i].active ==> w.link.slots[i].active))
    && (forall k :: 0 <= k < |v.acks| ==> v.acks[k] in w.acks)
  }

  lemma FreedKeepsLedger(w: World, v: World)
    requires Ledger(w) && Recent(w, U16_COUNT) && NothingNew(w, v)
    ensures Ledger(v) && Recent(v, U16_COUNT)
  {
  }

  lemma ArriveKeepsLedger(w: World, s: Setup, seqNum: u16)
    requires Ledger(w) && Recent(w, U16_COUNT)
    ensures Ledger(Apply(w, s, AckArrive(seqNum))) && Recent(Apply(w, s, AckArrive(seqNum)), U16_COUNT)
  {
    var v := Apply(w, s, AckArrive(seqNum));
    match LookUp(w.link.slots, seqNum) {
      case NotFound =>
      case Plain(i) =>
        hide Ledger, Recent;
        FreedKeepsLedger(w, v);
      case Detection(i, id) =>
        var a := AckTask(i, seqNum, id, false, w.books.ticket[i], w.books.base);
        assert w.link.slots[i].Holds(seqNum);
        assert TaskBooked(a, w);
        hide LookUp, TaskBooked, SlotsBooked;
        assert v == w.(acks := w.acks + [a]);
        TasksOnly(w, v);
        TaskBookedSame(a, w, v);
    }
  }

  lemma TasksOnly(w: World, v: World)
    requires Shape(w) && v.link == w.link && v.books == w.books
    ensures SlotsBooked(w) ==> SlotsBooked(v)
    ensures forall a :: a in w.acks && TaskBooked(a, w) ==> TaskBooked(a, v)
  {
  }

  lemma TaskBookedSame(a: AckTask, w: World, v: World)
    requires Shape(w) && v.link == w.link && v.books == w.books && TaskBooked(a, w)
    ensures TaskBooked(a, v)
  {
  }

  lemma ReconnectKeepsLedger(w: World, s: Setup)
    requires Ledger(w)
    ensures Ledger(Apply(w, s, Reconnect)) && Recent(Apply(w, s, Reconnect), U16_COUNT)
  {
    var v := Apply(w, s, Reconnect);
    forall k | 0 <= k < |v.acks|
      ensures TaskBooked(v.acks[k], v) && v.acks[k].base < v.books.base
    {
      assert TaskBooked(w.acks[k], w);
    }
  }

  lemma SendKeepsLedger(w: World, msgType: byte, payload: seq<byte>, requireAck: bool, radioOk: bool, now: u32)
    requires Ledger(w) && Recent(w, U16_COUNT - 1)
    ensures var v := SendMessage(w, msgType, payload, requireAck, radioOk, now); Ledger(v) && Recent(v, U16_COUNT)
  {
    var ok := SendMessage(w, msgType, payload, requireAck, true, now);
    var v := SendMessage(w, msgType, payload, requireAck, radioOk, now);
    DeliveredKeepsLedger(w, msgType, payload, requireAck, now);
    if !radioOk {
      FreedKeepsLedger(ok, v);
    }
  }

  lemma DeliveredKeepsLedger(w: World, msgType: byte, payload: seq<byte>, requireAck: bool, now: u32)
    requires Ledger(w) && Recent(w, U16_COUNT - 1)
    ensures var v := SendMessage(w, msgType, payload, requireAck, true, now); Ledger(v) && Recent(v, U16_COUNT)
  {
    var v := SendMessage(w, msgType, payload, requireAck, true, now);
    hide Frame.Encode;
    NextNumber(w.books.next, w.books.base);
    forall k | 0 <= k < |v.acks|
      ensures TaskBooked(v.acks[k], v)
    {
      assert TaskBooked(w.acks[k], w);
    }
  }

  lemma NextNumber(next: nat, base: nat)
    requires base <= next
    ensures NumberOf(next + 1, base) == NextSeq(NumberOf(next, base))
  {
    ModStep(next - base);
  }

  lemma ModStep(x: nat)
    ensures (x + 1) % U16_COUNT == (x % U16_COUNT + 1) % U16_COUNT
  {
  }

  /** The assumption along a whole run. */
  predicate NeverOverrun(w: World, s: Setup, steps: seq<Step>)
    requires Shape(w)
  {
    forall k :: 0 <= k < |steps| ==> NotOverrun(Run(w, s, steps[..k]), steps[k])
  }

  lemma {:induction false} LedgerAlways(w: World, s: Setup, steps: seq<Step>)
    requires Initial(w) && NeverOverrun(w, s, steps)
    ensures Ledger(Run(w, s, steps)) && Recent(Run(w, s, steps), U16_COUNT)
  {
    if steps == [] {
      InitialLedger(w);
    } else {
      var init := steps[..|steps| - 1];
      forall k | 0 <= k < |init|
        ensures NotOverrun(Run(w, s, init[..k]), init[k])
      {
        assert init[..k] == steps[..k];
      }
      LedgerAlways(w, s, init);
      assert steps[..|init|] == init;
      LedgerKept(Run(w, s, init), s, steps[|steps| - 1]);
    }
  }

  // ---------- one slot a number

  lemma TicketsFromNumbers(base: nat, t: nat, u: nat)
    requires base <= t < u && u - t < U16_COUNT
    ensures NumberOf(t, base) != NumberOf(u, base)
  {
    var x, d := t - base, u - t;
    assert u - base == x + d;
    assert x == U16_COUNT * (x / U16_COUNT) + x % U16_COUNT;
    assert x + d == U16_COUNT * ((x + d) / U16_COUNT) + (x + d) % U16_COUNT;
  }

  lemma NumbersUnique(w: World, i: nat, j: nat)
    requires Ledger(w) && Recent(w, U16_COUNT)
    requires i < j < |w.link.slots| && w.link.slots[i].active && w.link.slots[j].active
    ensures w.link.slots[i].seqNum != w.link.slots[j].seqNum
  {
    var b := w.books;
    if b.ticket[i] < b.ticket[j] {
      TicketsFromNumbers(b.base, b.ticket[i], b.ticket[j]);
    } else {
      TicketsFromNumbers(b.base, b.ticket[j], b.ticket[i]);
    }
  }

  /** In every state of every run, no two waiting messages share a sequence number. */
  lemma OneSlotPerNumber(w: World, s: Setup, steps: seq<Step>, i: nat, j: nat)
    requires Initial(w) && NeverOverrun(w, s, steps)
    requires i < j < |w.link.slots|
    ensures var t := Run(w, s, steps).link.slots;
      t[i].active && t[j].active ==> t[i].seqNum != t[j].seqNum
  {
    LedgerAlways(w, s, steps);
    var v := Run(w, s, steps);
    if v.link.slots[i].active && v.link.slots[j].active {
      NumbersUnique(v, i, j);
    }
  }

  // ---------- a slot is freed only for its own message

  /** A message the radio refuses takes its slot, if it has one, and nobody else's. */
  lemma FailedSendFreesOwn(w: World, msgType: byte, payload: seq<byte>, requireAck: bool, now: u32)
    requires Ledger(w) && Recent(w, U16_COUNT - 1)
    ensures
      var t := w.link.slots;
      var v := SendMessage(w, msgType, payload, requireAck, false, now).link.slots;
      var mine := FirstFree(t);
      && (forall i :: 0 <= i < |t| && !(Tracks(w.link, payload, requireAck) && i == mine) ==> v[i] == t[i])
      && (Tracks(w.link, payload, requireAck) ==> !v[mine].active)
  {
    hide Frame.Encode;
    var t, b := w.link.slots, w.books;
    forall i | 0 <= i < |t| && t[i].active
      ensures t[i].seqNum != w.link.txSeqNum
    {
      TicketsFromNumbers(b.base, b.ticket[i], b.next);
    }
  }

  /** A NACK, or the ACK of a plain message, frees the one message with that number and no other. */
  lemma NackFreesOwn(w: World, s: Setup, seqNum: u16)
    requires Ledger(w) && Recent(w, U16_COUNT)
    ensures
      var t, v := w.link.slots, Apply(w, s, Nack(seqNum)).link.slots;
      forall i :: 0 <= i < |t| ==> v[i] == if t[i].Holds(seqNum) then t[i].Freed() else t[i]
  {
    FreesExactly(w, seqNum);
  }

  lemma PlainAckFreesOwn(w: World, s: Setup, seqNum: u16)
    requires Ledger(w) && Recent(w, U16_COUNT) && LookUp(w.link.slots, seqNum).Plain?
    ensures
      var t, v := w.link.slots, Apply(w, s, AckArrive(seqNum)).link.slots;
      forall i :: 0 <= i < |t| ==> v[i] == if t[i].Holds(seqNum) then t[i].Freed() else t[i]
  {
    FreesExactly(w, seqNum);
  }

  lemma FreesExactly(w: World, seqNum: u16)
    requires Ledger(w) && Recent(w, U16_COUNT)
    ensures var t := w.link.slots;
      forall i :: 0 <= i < |t| ==> Clear(t, seqNum)[i] == if t[i].Holds(seqNum) then t[i].Freed() else t[i]
  {
    var t, f := w.link.slots, FirstHolding(w.link.slots, seqNum);
    forall i | 0 <= i < |t| && t[i].Holds(seqNum)
      ensures i == f
    {
      if f < i {
        NumbersUnique(w, f, i);
      }
    }
  }

  /** When the second half of an ACK finds its number still in its slot, the message there is the one
      it looked up exactly if the session is still the one it looked it up in. */
  lemma RecheckFindsOwnIff(w: World, k: nat)
    requires Ledger(w) && Recent(w, U16_COUNT) && k < |w.acks|
    requires w.link.slots[w.acks[k].slot].Holds(w.acks[k].seqNum)
    ensures w.books.ticket[w.acks[k].slot] == w.acks[k].ticket <==> w.acks[k].base == w.books.base
  {
    var a, b := w.acks[k], w.books;
    assert TaskBooked(a, w);
    var t := b.ticket[a.slot];
    if a.base == b.base && t != a.ticket {
      TicketsFromNumbers(b.base, a.ticket, t);
      assert false;
    }
  }

  /** No reconnect happens while an ACK is in its gap. So it is where the callbacks of the radio all run
      in one task. */
  predicate GapsUndisturbed(w: World, s: Setup, steps: seq<Step>)
    requires Shape(w)
  {
    forall k :: 0 <= k < |steps| && steps[k].Reconnect? ==> Run(w, s, steps[..k]).acks == []
  }

  /** Every ACK in its gap was looked up in the current session. */
  predicate InSession(w: World) {
    forall k :: 0 <= k < |w.acks| ==> w.acks[k].base == w.books.base
  }

  lemma {:induction false} GapsStayInSession(w: World, s: Setup, steps: seq<Step>)
    requires Initial(w) && GapsUndisturbed(w, s, steps)
    ensures InSession(Run(w, s, steps))
  {
    if steps != [] {
      var init, step := steps[..|steps| - 1], steps[|steps| - 1];
      assert GapsUndisturbed(w, s, init) by {
        assert forall k :: 0 <= k < |init| ==> init[..k] == steps[..k];
      }
      GapsStayInSession(w, s, init);
      assert steps[..|init|] == init && InSession(Run(w, s, init));
      SessionKept(Run(w, s, init), s, step);
    }
  }

  lemma SessionKept(w: World, s: Setup, step: Step)
    requires Shape(w) && InSession(w) && (step.Reconnect? ==> w.acks == [])
    ensures InSession(Apply(w, s, step))
  {
    hide Log, TimeSync, FastForward, MarkSynced, Send, Serialize, LookUp, Retried, Judge, AfterLookup, AfterRecheck;
    hide Clear, ClearAll, CountActive, FirstFree, FirstHolding, FailureFrees, Tracks, NextUnsynced, Since;
  }

  /** Then, in every run, the second half of an ACK changes no slot but that of the message it looked up. */
  lemma FinishFreesOwn(w: World, s: Setup, steps: seq<Step>, k: nat, i: nat)
    requires Initial(w) && NeverOverrun(w, s, steps) && GapsUndisturbed(w, s, steps)
    requires k < |Run(w, s, steps).acks| && i < |w.link.slots|
    ensures
      var v := Run(w, s, steps);
      Apply(v, s, AckFinish(k)).link.slots[i] != v.link.slots[i] ==>
        i == v.acks[k].slot && v.books.ticket[i] == v.acks[k].ticket
  {
    LedgerAlways(w, s, steps);
    GapsStayInSession(w, s, steps);
    FinishInSession(Run(w, s, steps), s, k, i);
  }

  lemma FinishInSession(v: World, s: Setup, k: nat, i: nat)
    requires Ledger(v) && Recent(v, U16_COUNT) && k < |v.acks| && i < |v.link.slots| && v.acks[k].base == v.books.base
    ensures
      Apply(v, s, AckFinish(k)).link.slots[i] != v.link.slots[i] ==>
        i == v.acks[k].slot && v.books.ticket[i] == v.acks[k].ticket
  {
    assert TaskBooked(v.acks[k], v);
    if v.link.slots[v.acks[k].slot].Holds(v.acks[k].seqNum) {
      RecheckFindsOwnIff(v, k);
    }
    hide Ledger, Recent;
  }

  // ---------- where another task could reconnect

  function StalePrefix(durationMs: u16, uptime: u32, epoch: u32): seq<Step> {
    [] + [LogEvent(durationMs, uptime, epoch)] + [FetchUnsynced]
  }

  function StaleSteps(now: u32): seq<Step> {
    [] + [SendEvent(0, true, now)] + [AckArrive(0)] + [Reconnect] + [SendEvent(0, true, now)]
  }

  /** The last state of a run, and that state once the old ACK has finished: the new session's message is
      gone although its own ACK never arrived. */
  predicate StaleAckFrees(before: World, s: Setup) {
    && Shape(before) && |before.link.slots| > 0
    && |before.acks| == 1 && before.acks[0].ticket != before.books.ticket[0]
    && before.link.slots[0].active && before.link.slots[0].msgType == MSG_DETECTION_EVENT
    && !Apply(before, s, AckFinish(0)).link.slots[0].active
  }

  /** If a reconnect could run in the gap, the old ACK would free the new session's message: log an event,
      fetch it, send it, reconnect in the gap of its ACK, send it again. */
  lemma StaleAckFreesNewMessage(w: World, s: Setup, durationMs: u16, uptime: u32, epoch: u32, now: u32)
    requires Initial(w) && |w.link.slots| > 0 && s.capacity > 0
    ensures StaleAckFrees(Run(w, s, StalePrefix(durationMs, uptime, epoch) + StaleSteps(now)), s)
  {
    var logged := LogEvent(durationMs, uptime, epoch);
    RunSnoc(w, s, [], logged);
    RunSnoc(w, s, [] + [logged], FetchUnsynced);
    LogThenFetch(w, s, durationMs, uptime, epoch);
    var v := Run(w, s, StalePrefix(durationMs, uptime, epoch));
    RunConcat(w, s, StalePrefix(durationMs, uptime, epoch), StaleSteps(now));
    StaleFromHand(v, s, v.hand[0], now);
  }

  lemma LogThenFetch(w: World, s: Setup, durationMs: u16, uptime: u32, epoch: u32)
    requires Initial(w) && s.capacity > 0
    ensures
      var v := Apply(Apply(w, s, LogEvent(durationMs, uptime, epoch)), s, FetchUnsynced);
      |v.hand| == 1 && v == w.(hist := v.hist, hand := v.hand)
  {
    var e := NewEvent(w.hist, s.capacity, durationMs, uptime, epoch);
    var events := Log(w.hist, s.capacity, durationMs, uptime, epoch).events;
    assert events[|events| - 1] == e && !e.IsSynced();
  }

  lemma {:induction false} RunConcat(w: World, s: Setup, a: seq<Step>, b: seq<Step>)
    requires Shape(w)
    ensures Run(w, s, a + b) == Run(Run(w, s, a), s, b)
  {
    hide Apply;
    if b == [] {
      assert a + b == a;
    } else {
      RunConcat(w, s, a, b[..|b| - 1]);
      assert (a + b)[..|a + b| - 1] == a + b[..|b| - 1];
    }
  }

  lemma StaleFromHand(w: World, s: Setup, e: Event, now: u32)
    requires Initial(w.(hand := [])) && w.hand == [e] && |w.link.slots| > 0
    ensures StaleAckFrees(Run(w, s, StaleSteps(now)), s)
  {
    var s1 := [] + [SendEvent(0, true, now)];
    var s2 := s1 + [AckArrive(0)];
    var s3 := s2 + [Reconnect];
    RunSnoc(w, s, [], SendEvent(0, true, now));
    RunSnoc(w, s, s1, AckArrive(0));
    RunSnoc(w, s, s2, Reconnect);
    RunSnoc(w, s, s3, SendEvent(0, true, now));
    hide Run, Apply;
    FirstSend(w, s, e, now);
    FirstAck(Run(w, s, s1), s, e);
    Reset(Run(w, s, s2), s);
    FirstSend(Run(w, s, s3), s, e, now);
    LateFinish(Run(w, s, s3 + [SendEvent(0, true, now)]), s);
  }

  lemma FirstSend(w: World, s: Setup, e: Event, now: u32)
    requires Shape(w) && |w.link.slots| > 0 && !w.link.slots[0].active && w.link.txSeqNum == 0 && w.hand == [e]
    ensures var v := Apply(w, s, SendEvent(0, true, now));
      && Shape(v) && |v.link.slots| > 0 && v.hand == [e] && v.acks == w.acks
      && v.link.slots[0] == NewSlot(0, MSG_DETECTION_EVENT,
          Frame.Encode(Frame.Message(MSG_DETECTION_EVENT, 0, Serialize(e))), now)
      && v.books.ticket[0] == w.books.next && v.books.next == w.books.next + 1 && v.books.base == w.books.base
  {
    hide Frame.Encode, Serialize;
    assert FirstFree(w.link.slots) == 0;
  }

  lemma FirstAck(w: World, s: Setup, e: Event)
    requires Shape(w) && |w.link.slots| > 0 && w.hand == [e] && w.acks == [] && w.link.slots[0].Holds(0)
    requires w.link.slots[0].msgType == MSG_DETECTION_EVENT
    requires w.link.slots[0].data == Frame.Encode(Frame.Message(MSG_DETECTION_EVENT, 0, Serialize(e)))
    requires w.books.ticket[0] < w.books.next
    ensures var v := Apply(w, s, AckArrive(0));
      && Shape(v) && |v.link.slots| > 0 && v.hand == [e] && v.books == w.books
      && |v.acks| == 1 && v.acks[0].slot == 0 && v.acks[0].seqNum == 0 && v.acks[0].ticket < v.books.next
  {
    hide Serialize;
    assert FirstHolding(w.link.slots, 0) == 0;
  }

  lemma Reset(w: World, s: Setup)
    requires Shape(w)
    ensures var v := Apply(w, s, Reconnect);
      && Shape(v) && |v.link.slots| == |w.link.slots| && v.link.txSeqNum == 0 && v.hand == w.hand && v.acks == w.acks
      && v.books.next == w.books.next && forall i :: 0 <= i < |v.link.slots| ==> !v.link.slots[i].active
  {
  }

  lemma LateFinish(w: World, s: Setup)
    requires Shape(w) && |w.link.slots| > 0 && |w.acks| == 1 && w.acks[0].slot == 0 && w.acks[0].seqNum == 0
    requires w.link.slots[0].Holds(0)
    ensures !Apply(w, s, AckFinish(0)).link.slots[0].active
  {
  }

  lemma RunSnoc(w: World, s: Setup, init: seq<Step>, step: Step)
    requires Shape(w)
    ensures Run(w, s, init + [step]) == Apply(Run(w, s, init), s, step)
    ensures Run(w, s, []) == w
  {
    assert (init + [step])[..|init|] == init;
  }

  // ---------- every tracked message is accounted for

  predicate Balanced(w: World) {
    var b := w.books;
    b.tracked == CountActive(w.link.slots) + b.acked + b.nacked + b.gaveUp + b.failed + b.cleared
  }

  lemma FreeCounts(t: Table, i: nat)
    requires i < |t|
    ensures CountActive(FreeAt(t, i)) == CountActive(t) - if t[i].active then 1 else 0
  {
    ActiveUpdate(t, i, t[i].Freed());
  }

  lemma BalanceKept(w: World, s: Setup, step: Step)
    requires Shape(w) && Balanced(w)
    ensures Balanced(Apply(w, s, step))
  {
    var t := w.link.slots;
    hide CountActive, Log, TimeSync, FastForward, MarkSynced, Frame.Encode, Serialize;
    match step {
      case SendEvent(k, radioOk, now) =>
        if k < |w.hand| {
          SendBalance(w, MSG_DETECTION_EVENT, Serialize(w.hand[k]), true, radioOk, now);
        }
      case SendOther(msgType, payload, requireAck, radioOk, now) =>
        if msgType != MSG_DETECTION_EVENT {
          SendBalance(w, msgType, payload, requireAck, radioOk, now);
        }
      case RetrySlot(i, now) =>
        if i < |t| {
          ActiveUpdate(t, i, Retried(t[i], now, s.timing));
        }
      case AckArrive(seqNum) =>
        if LookUp(t, seqNum).Plain? {
          FreeCounts(t, FirstHolding(t, seqNum));
        }
      case AckFinish(k) =>
        if k < |w.acks| && w.acks[k].slot < |t| {
          FreeCounts(t, w.acks[k].slot);
        }
      case Nack(seqNum) =>
        if FirstHolding(t, seqNum) < |t| {
          FreeCounts(t, FirstHolding(t, seqNum));
        }
      case Disconnect => CountAllFreed(t);
      case Reconnect => CountAllFreed(t);
      case _ =>
    }
  }

  lemma SendBalance(w: World, msgType: byte, payload: seq<byte>, requireAck: bool, radioOk: bool, now: u32)
    requires Shape(w) && Balanced(w)
    ensures Balanced(SendMessage(w, msgType, payload, requireAck, radioOk, now))
  {
    hide CountActive, Frame.Encode;
    var t, r := w.link.slots, Send(w.link, msgType, payload, requireAck, true, now);
    var free := FirstFree(t);
    if Tracks(w.link, payload, requireAck) {
      ActiveUpdate(t, free, r.link.slots[free]);
    }
    var mine := FirstHolding(r.link.slots, w.link.txSeqNum);
    if mine < |r.link.slots| {
      FreeCounts(r.link.slots, mine);
    }
  }

  /** Tracked = waiting + acknowledged + rejected + given up + refused by the radio + dropped on
      disconnect or reconnect, after any run. */
  lemma {:induction false} NothingUnaccounted(w: World, s: Setup, steps: seq<Step>)
    requires Initial(w)
    ensures Balanced(Run(w, s, steps))
  {
    if steps == [] {
      NoneActive(w.link.slots);
    } else {
      NothingUnaccounted(w, s, steps[..|steps| - 1]);
      BalanceKept(Run(w, s, steps[..|steps| - 1]), s, steps[|steps| - 1]);
    }
  }
}
