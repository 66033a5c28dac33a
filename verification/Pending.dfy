/** The table of messages that wait for an acknowledgement, as each critical section changes it. */
module Pending {
  import opened Bytes
  import opened Events
  import Frame

  const MAX_PENDING_MESSAGES := 64

  const MSG_ACK: byte := 0x02
  const MSG_NACK: byte := 0x03
  const MSG_DETECTION_EVENT: byte := 0x10

  /** Timing limits that the build configures. */
  datatype Config = Config(ackTimeoutMs: u32, maxRetryCount: byte)

  datatype Slot = Slot(active: bool, seqNum: u16, sentTime: u32, retryCount: byte, msgType: byte, data: seq<byte>) {

    function Freed(): Slot {
      this.(active := false)
    }

    predicate Holds(seqNum: u16) {
      active && this.seqNum == seqNum
    }
  }

  type Table = seq<Slot>

  /** The first slot that is free, or the length. */
  function FirstFree(t: Table): (i: nat)
    ensures i <= |t|
    ensures i < |t| ==> !t[i].active
    ensures forall k :: 0 <= k < i ==> t[k].active
  {
    if t == [] then 0 else if !t[0].active then 0 else 1 + FirstFree(t[1..])
  }

  /** The first active slot with this sequence number, or the length. */
  function FirstHolding(t: Table, seqNum: u16): (i: nat)
    ensures i <= |t|
    ensures i < |t| ==> t[i].Holds(seqNum)
    ensures forall k :: 0 <= k < i ==> !t[k].Holds(seqNum)
  {
    if t == [] then 0 else if t[0].Holds(seqNum) then 0 else 1 + FirstHolding(t[1..], seqNum)
  }

  function CountActive(t: Table): (n: nat)
    ensures n <= |t|
  {
    if t == [] then 0 else CountActive(t[..|t| - 1]) + if t[|t| - 1].active then 1 else 0
  }

  function FreeAt(t: Table, i: nat): (r: Table)
    ensures |r| == |t|
  {
    if i < |t| then t[i := t[i].Freed()] else t
  }

  function Clear(t: Table, seqNum: u16): (r: Table)
    ensures |r| == |t|
  {
    FreeAt(t, FirstHolding(t, seqNum))
  }

  function ClearAll(t: Table): (r: Table)
    ensures |r| == |t| && forall i :: 0 <= i < |t| ==> r[i] == t[i].Freed()
  {
    seq(|t|, i requires 0 <= i < |t| => t[i].Freed())
  }

  // ---------- sending

  datatype Link = Link(slots: Table, txSeqNum: u16)

  function NextSeq(s: u16): u16 {
    (s + 1) % U16_COUNT
  }

  /** onAir is the frame handed to the radio, if one was. */
  datatype SendResult = SendResult(link: Link, sent: bool, onAir: Option<seq<byte>>)

  function NewSlot(seqNum: u16, msgType: byte, data: seq<byte>, now: u32): Slot {
    Slot(true, seqNum, now, 0, msgType, data)
  }

  /** A send takes the next sequence number whatever comes of it. It needs a frame, and a free slot
      if it wants an acknowledgement; a message the radio refuses gives its slot back. */
  function Send(link: Link, msgType: byte, payload: seq<byte>, requireAck: bool, radioOk: bool, now: u32): SendResult {
    var s := link.txSeqNum;
    var next := link.(txSeqNum := NextSeq(s));
    if |payload| > Frame.MAX_PAYLOAD_SIZE then SendResult(next, false, None)
    else
      var frame := Frame.Encode(Frame.Message(msgType, s, payload));
      var free := FirstFree(link.slots);
      if requireAck && free == |link.slots| then SendResult(next, false, None)
      else
        var tracked := if requireAck then next.(slots := link.slots[free := NewSlot(s, msgType, frame, now)]) else next;
        SendResult(if radioOk then tracked else tracked.(slots := Clear(tracked.slots, s)), radioOk, Some(frame))
  }

  // ---------- acknowledging

  /** What the first critical section of an ACK finds. */
  datatype Lookup = NotFound | Plain(slot: nat) | Detection(slot: nat, eventId: u32)

  function EventIdIn(data: seq<byte>): u32
    requires |data| >= Frame.HEADER_SIZE + 4
  {
    LeadingId(data[Frame.HEADER_SIZE..])
  }

  function LookUp(t: Table, seqNum: u16): Lookup {
    var i := FirstHolding(t, seqNum);
    if i == |t| then NotFound
    else if t[i].msgType == MSG_DETECTION_EVENT && |t[i].data| >= Frame.HEADER_SIZE + 4 then
      Detection(i, EventIdIn(t[i].data))
    else Plain(i)
  }

  /** The table once the first critical section is over: a plain message is freed at once. */
  function AfterLookup(t: Table, seqNum: u16): Table {
    match LookUp(t, seqNum)
    case Plain(i) => FreeAt(t, i)
    case _ => t
  }

  /** The second critical section frees the slot it remembers if it still holds the number. */
  function AfterRecheck(t: Table, slot: nat, seqNum: u16): Table {
    if slot < |t| && t[slot].Holds(seqNum) then FreeAt(t, slot) else t
  }

  // ---------- retrying

  datatype Verdict = Wait | Retry | GiveUp

  function Overdue(s: Slot, now: u32, c: Config): bool {
    (now - s.sentTime) % U32_COUNT > c.ackTimeoutMs
  }

  function Judge(s: Slot, now: u32, c: Config): Verdict {
    if !s.active || !Overdue(s, now, c) then Wait
    else if s.retryCount < c.maxRetryCount then Retry
    else GiveUp
  }

  function Retried(s: Slot, now: u32, c: Config): Slot {
    match Judge(s, now, c)
    case Wait => s
    case Retry => s.(retryCount := s.retryCount + 1, sentTime := now)
    case GiveUp => s.Freed()
  }

  /** A slot after a pass, if its lock was obtained or missed. */
  function Visited(s: Slot, locked: bool, now: u32, c: Config): Slot {
    if locked then Retried(s, now, c) else s
  }

  /** One pass over the table with one reading of the clock, missing the lock at some slots. */
  function Pass(t: Table, locked: seq<bool>, now: u32, c: Config): (r: Table)
    requires |locked| == |t|
    ensures |r| == |t| && forall i :: 0 <= i < |t| ==> r[i] == Visited(t[i], locked[i], now, c)
  {
    seq(|t|, i requires 0 <= i < |t| => Visited(t[i], locked[i], now, c))
  }

  /** The frames a pass transmits, in slot order. */
  function PassFrames(t: Table, locked: seq<bool>, now: u32, c: Config): seq<seq<byte>>
    requires |locked| == |t|
  {
    if t == [] then [] else
      var n := |t| - 1;
      PassFrames(t[..n], locked[..n], now, c) + if locked[n] && Judge(t[n], now, c).Retry? then [t[n].data] else []
  }

  // ---------- counting

  lemma {:induction false} ActiveUpdate(t: Table, i: nat, s: Slot)
    requires i < |t|
    ensures CountActive(t[i := s]) == CountActive(t) - (if t[i].active then 1 else 0) + if s.active then 1 else 0
  {
    var u, n := t[i := s], |t| - 1;
    if i < n {
      ActiveUpdate(t[..n], i, s);
      assert u[..n] == t[..n][i := s];
    } else {
      assert u[..n] == t[..n];
    }
  }

  lemma {:induction false} CountAllFreed(t: Table)
    ensures CountActive(ClearAll(t)) == 0
  {
    if t != [] {
      CountAllFreed(t[..|t| - 1]);
      assert ClearAll(t)[..|t| - 1] == ClearAll(t[..|t| - 1]);
    }
  }

  /** A slot is found free exactly when not all slots are taken. */
  lemma {:induction false} FullIff(t: Table)
    ensures FirstFree(t) == |t| <==> CountActive(t) == |t|
  {
    var n := |t|;
    if n > 0 {
      FullIff(t[..n - 1]);
      assert forall k :: 0 <= k < n - 1 ==> t[..n - 1][k] == t[k];
    }
  }

  // ---------- a retry waits again

  /** A retransmitted message is left alone for as long as a message just sent, and then acted on again. */
  lemma RetriedWaits(s: Slot, now: u32, later: u32, c: Config)
    requires Judge(s, now, c).Retry?
    ensures Judge(Retried(s, now, c), later, c).Wait? <==> (later - now) % U32_COUNT <= c.ackTimeoutMs
    ensures Judge(NewSlot(s.seqNum, s.msgType, s.data, now), later, c).Wait?
        <==> (later - now) % U32_COUNT <= c.ackTimeoutMs
  {
  }

  /** Two passes no further apart than the timeout transmit no message twice, whichever locks they obtain. */
  lemma PassesApart(t: Table, locked: seq<bool>, locked': seq<bool>, now: u32, later: u32, c: Config, i: nat)
    requires |locked| == |locked'| == |t| && i < |t| && (later - now) % U32_COUNT <= c.ackTimeoutMs
    requires locked[i] && Judge(t[i], now, c).Retry?
    ensures Visited(Pass(t, locked, now, c)[i], locked'[i], later, c) == Pass(t, locked, now, c)[i]
    ensures Judge(Pass(t, locked, now, c)[i], later, c).Wait?
  {
    RetriedWaits(t[i], now, later, c);
  }

  /** A pass leaves a slot alone whose lock it misses, and transmits no frame of it. */
  lemma {:induction false} MissedIsLeft(t: Table, locked: seq<bool>, now: u32, c: Config)
    requires |locked| == |t|
    ensures forall i :: 0 <= i < |t| && !locked[i] ==> Pass(t, locked, now, c)[i] == t[i]
    ensures (forall i :: 0 <= i < |t| ==> !locked[i]) ==> PassFrames(t, locked, now, c) == []
  {
    if t != [] {
      MissedIsLeft(t[..|t| - 1], locked[..|t| - 1], now, c);
    }
  }

  // ---------- retries run out

  /** How many timeouts a slot can still absorb. */
  function TimeoutsLeft(s: Slot, c: Config): nat {
    if !s.active then 0 else if s.retryCount < c.maxRetryCount then c.maxRetryCount + 1 - s.retryCount else 1
  }

  function Potential(t: Table, c: Config): nat {
    if t == [] then 0 else Potential(t[..|t| - 1], c) + TimeoutsLeft(t[|t| - 1], c)
  }

  lemma {:induction false} PotentialUpdate(t: Table, i: nat, s: Slot, c: Config)
    requires i < |t|
    ensures Potential(t[i := s], c) == Potential(t, c) - TimeoutsLeft(t[i], c) + TimeoutsLeft(s, c)
  {
    hide TimeoutsLeft;
    var u, n := t[i := s], |t| - 1;
    if i < n {
      PotentialUpdate(t[..n], i, s, c);
      assert u[..n] == t[..n][i := s];
    } else {
      assert u[..n] == t[..n];
    }
  }

  /** Every timed-out slot uses up one unit, and a slot that is not timed out uses none. */
  lemma TimeoutSpendsPotential(t: Table, i: nat, now: u32, c: Config)
    requires i < |t|
    ensures Potential(t[i := Retried(t[i], now, c)], c)
         == Potential(t, c) - if Judge(t[i], now, c).Wait? then 0 else 1
  {
    PotentialUpdate(t, i, Retried(t[i], now, c), c);
  }

  /** A pass: when the clock was read, and at which slots the lock was obtained. */
  datatype Round = Round(now: u32, locked: seq<bool>)

  predicate Fit(rounds: seq<Round>, n: nat) {
    forall k :: 0 <= k < |rounds| ==> |rounds[k].locked| == n
  }

  function Passes(t: Table, rounds: seq<Round>, c: Config): (r: Table)
    requires Fit(rounds, |t|)
    ensures |r| == |t|
  {
    if rounds == [] then t else
      var last := rounds[|rounds| - 1];
      Pass(Passes(t, rounds[..|rounds| - 1], c), last.locked, last.now, c)
  }

  /** How many passes obtained the lock of slot i and found it overdue, or free. */
  function Hits(t: Table, rounds: seq<Round>, c: Config, i: nat): nat
    requires Fit(rounds, |t|) && i < |t|
  {
    if rounds == [] then 0 else
      var init, last := rounds[..|rounds| - 1], rounds[|rounds| - 1];
      var s := Passes(t, init, c)[i];
      Hits(t, init, c, i) + if last.locked[i] && (s.active ==> Overdue(s, last.now, c)) then 1 else 0
  }

  /** Once every slot was hit more often than the retry limit, nothing waits, however the locks of the
      passes were missed. */
  lemma PassesDrain(t: Table, rounds: seq<Round>, c: Config)
    requires Fit(rounds, |t|)
    requires forall i :: 0 <= i < |t| ==> Hits(t, rounds, c, i) > c.maxRetryCount
    ensures CountActive(Passes(t, rounds, c)) == 0
  {
    forall i | 0 <= i < |t|
      ensures !Passes(t, rounds, c)[i].active
    {
      SlotAges(t, rounds, c, i);
      assert Hits(t, rounds, c, i) > c.maxRetryCount;
    }
    NoneActive(Passes(t, rounds, c));
  }

  lemma {:induction false} NoneActive(t: Table)
    requires forall i :: 0 <= i < |t| ==> !t[i].active
    ensures CountActive(t) == 0
  {
    if t != [] {
      NoneActive(t[..|t| - 1]);
    }
  }

  /** A slot that is still waiting has been retried at every hit. */
  lemma {:induction false} SlotAges(t: Table, rounds: seq<Round>, c: Config, i: nat)
    requires Fit(rounds, |t|) && i < |t|
    ensures
      var s, hits := Passes(t, rounds, c)[i], Hits(t, rounds, c, i);
      s.active && hits > 0 ==> hits <= s.retryCount <= c.maxRetryCount
  {
    if rounds != [] {
      SlotAges(t, rounds[..|rounds| - 1], c, i);
    }
  }
}
