/** The whole delivery loop as a state machine: every critical section of every task is one step,
    and the gap in the middle of handling an ACK lets any other step happen. */
module Delivery {
  import opened Bytes
  import opened Events
  import opened History
  import opened Pending
  import Frame

  datatype Setup = Setup(capacity: nat, timing: Config)

  /** An ACK between its two critical sections. It remembers the slot, the number and the event id;
      ticket and base only say, for the proofs, which message the slot held and in which session. */
  datatype AckTask = AckTask(slot: nat, seqNum: u16, eventId: u32, marked: bool, ticket: nat, base: nat)

  /** Bookkeeping that the firmware does not have: every send gets a ticket that is never reused,
      ticket[i] is the one slot i was last filled with, base is the first of the session. */
  datatype Books = Books(ticket: seq<nat>, next: nat, base: nat,
                         tracked: nat, acked: nat, nacked: nat, gaveUp: nat, failed: nat, cleared: nat)

  /** hand holds the copies of events that tasks have fetched from the ring. */
  datatype World = World(hist: History, link: Link, hand: seq<Event>, acks: seq<AckTask>, books: Books)

  datatype Step =
    | LogEvent(durationMs: u16, uptime: u32, epoch: u32)
    | SkipIds(id: u32)
    | SyncTime(epoch: u32, uptime: u32)
    | FetchUnsynced
    | FetchSince(id: u32)
    | SendEvent(k: nat, radioOk: bool, now: u32)
    | SendOther(msgType: byte, payload: seq<byte>, requireAck: bool, radioOk: bool, now: u32)
    | RetrySlot(slot: nat, now: u32)
    | AckArrive(seqNum: u16)
    | AckMark(k: nat)
    | AckFinish(k: nat)
    | AckDrop(k: nat)
    | Nack(seqNum: u16)
    | Reconnect
    | Disconnect

  function Tracks(link: Link, payload: seq<byte>, requireAck: bool): bool {
    |payload| <= Frame.MAX_PAYLOAD_SIZE && requireAck && FirstFree(link.slots) < |link.slots|
  }

  /** Whether a refused send finds a slot with its number to free. */
  function FailureFrees(link: Link, msgType: byte, payload: seq<byte>, requireAck: bool, now: u32): bool {
    var r := Send(link, msgType, payload, requireAck, true, now);
    r.onAir.Some? && FirstHolding(r.link.slots, link.txSeqNum) < |r.link.slots|
  }

  function SendMessage(w: World, msgType: byte, payload: seq<byte>, requireAck: bool, radioOk: bool, now: u32): World
    requires |w.books.ticket| == |w.link.slots|
  {
    var b := w.books;
    var tracks := Tracks(w.link, payload, requireAck);
    var frees := !radioOk && FailureFrees(w.link, msgType, payload, requireAck, now);
    w.(link := Send(w.link, msgType, payload, requireAck, radioOk, now).link,
       books := b.(ticket := if tracks then b.ticket[FirstFree(w.link.slots) := b.next] else b.ticket,
                   next := b.next + 1,
                   tracked := b.tracked + (if tracks then 1 else 0),
                   failed := b.failed + if frees then 1 else 0))
  }

  function Without<T>(s: seq<T>, k: nat): seq<T>
    requires k < |s|
  {
    s[..k] + s[k + 1..]
  }

  function Apply(w: World, s: Setup, step: Step): World
    requires |w.books.ticket| == |w.link.slots|
  {
    var t, b := w.link.slots, w.books;
    match step
    case LogEvent(durationMs, uptime, epoch) => w.(hist := Log(w.hist, s.capacity, durationMs, uptime, epoch))
    case SkipIds(id) => w.(hist := FastForward(w.hist, id))
    case SyncTime(epoch, uptime) => w.(hist := TimeSync(w.hist, epoch, uptime))
    case FetchUnsynced =>
      var e := NextUnsynced(w.hist.events);
      if e.Some? then w.(hand := w.hand + [e.value]) else w
    case FetchSince(id) =>
      var found := Since(w.hist.events, id);
      if found != [] then w.(hand := w.hand + [found[0]]) else w
    case SendEvent(k, radioOk, now) =>
      if k < |w.hand| then SendMessage(w, MSG_DETECTION_EVENT, Serialize(w.hand[k]), true, radioOk, now) else w
    case SendOther(msgType, payload, requireAck, radioOk, now) =>
      if msgType != MSG_DETECTION_EVENT then SendMessage(w, msgType, payload, requireAck, radioOk, now) else w
    case RetrySlot(i, now) =>
      if i < |t| then
        w.(link := w.link.(slots := t[i := Retried(t[i], now, s.timing)]),
           books := b.(gaveUp := b.gaveUp + if Judge(t[i], now, s.timing).GiveUp? then 1 else 0))
      else w
    case AckArrive(seqNum) =>
      (match LookUp(t, seqNum)
       case NotFound => w
       case Plain(i) => w.(link := w.link.(slots := AfterLookup(t, seqNum)), books := b.(acked := b.acked + 1))
       case Detection(i, id) => w.(acks := w.acks + [AckTask(i, seqNum, id, false, b.ticket[i], b.base)]))
    case AckMark(k) =>
      if k < |w.acks| && !w.acks[k].marked then
        w.(hist := MarkSynced(w.hist, w.acks[k].eventId), acks := w.acks[k := w.acks[k].(marked := true)])
      else w
    case AckFinish(k) =>
      if k < |w.acks| then
        var a := w.acks[k];
        w.(link := w.link.(slots := AfterRecheck(t, a.slot, a.seqNum)),
           acks := Without(w.acks, k),
           books := b.(acked := b.acked + if a.slot < |t| && t[a.slot].Holds(a.seqNum) then 1 else 0))
      else w
    case AckDrop(k) => if k < |w.acks| then w.(acks := Without(w.acks, k)) else w
    case Nack(seqNum) =>
      w.(link := w.link.(slots := Clear(t, seqNum)),
         books := b.(nacked := b.nacked + if FirstHolding(t, seqNum) < |t| then 1 else 0))
    case Disconnect =>
      w.(link := w.link.(slots := ClearAll(t)), books := b.(cleared := b.cleared + CountActive(t)))
    case Reconnect =>
      w.(link := Link(ClearAll(t), 0), books := b.(base := b.next, cleared := b.cleared + CountActive(t)))
  }

  lemma ApplyKeepsShape(w: World, s: Setup, step: Step)
    requires |w.books.ticket| == |w.link.slots|
    ensures |Apply(w, s, step).books.ticket| == |Apply(w, s, step).link.slots| == |w.link.slots|
  {
  }

  function Run(w: World, s: Setup, steps: seq<Step>): (r: World)
    requires |w.books.ticket| == |w.link.slots|
    ensures |r.books.ticket| == |r.link.slots| == |w.link.slots|
  {
    if steps == [] then w else
      var v := Run(w, s, steps[..|steps| - 1]);
      ApplyKeepsShape(v, s, steps[|steps| - 1]);
      Apply(v, s, steps[|steps| - 1])
  }

  /** A fresh link over any history: nothing pending, nothing in hand. */
  predicate Initial(w: World) {
    && |w.books.ticket| == |w.link.slots|
    && (forall i :: 0 <= i < |w.link.slots| ==> !w.link.slots[i].active)
    && w.link.txSeqNum == 0 && w.hand == [] && w.acks == []
    && w.books == Books(w.books.ticket, w.books.next, w.books.next, 0, 0, 0, 0, 0, 0)
    && forall i :: 0 <= i < |w.books.ticket| ==> w.books.ticket[i] < w.books.next
  }
}
