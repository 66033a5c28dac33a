/** The protocol handler: framing, the pending table, acknowledgements, retries and sync. Every method
    is specified by the functions of module Pending on the table it guards. */
module ProtocolHandlers {
  import opened Bytes
  import opened Words
  import opened Events
  import opened History
  import opened Pending
  import opened HistoryServices
  import Frame
  import Governor
  import SyncPaging

  const INVALID_ACK_THRESHOLD: byte := 10
  const SECURITY_RESET_WINDOW_MS: u32 := 60000

  const ERR_INVALID_PAYLOAD: byte := 0x0A

  /** What the surroundings decide for one send: whether a peer is connected, whether the lock is
      obtained, whether the radio takes the frame, and the clock. */
  datatype Env = Env(connected: bool, locked: bool, radioOk: bool, now: u32)

  /** The guard against acknowledgements of nothing: how many in a row, and when the last came. */
  datatype Guard = Guard(invalidAckCount: byte, lastSecurityEvent: u32) {

    /** Counts one more; a long quiet time, or reaching the threshold, starts again from zero. */
    function Phantom(now: u32): Guard
      requires invalidAckCount < INVALID_ACK_THRESHOLD
    {
      var quiet := (now - lastSecurityEvent) % U32_COUNT > SECURITY_RESET_WINDOW_MS;
      var count := (if quiet then 0 else invalidAckCount) + 1;
      Guard(if count >= INVALID_ACK_THRESHOLD then 0 else count, now)
    }
  }

  /** The radio, with every frame it was asked to transmit. */
  class Radio {
    var attempted: seq<seq<byte>>

    method SendNotification(data: array<byte>, len: nat)
      requires len <= data.Length
      modifies this
      ensures attempted == old(attempted) + [data[..len]]
    {
      attempted := attempted + [data[..len]];
    }

    method SendCopy(data: seq<byte>)
      modifies this
      ensures attempted == old(attempted) + [data]
    {
      attempted := attempted + [data];
    }
  }

  function Attempts(onAir: Option<seq<byte>>): seq<seq<byte>> {
    if onAir.Some? then [onAir.value] else []
  }

  function SendOne(link: Link, e: Event, env: Env): SendResult {
    if env.connected && env.locked then Send(link, MSG_DETECTION_EVENT, Serialize(e), true, env.radioOk, env.now)
    else SendResult(link, false, None)
  }

  /** sent events went out before the first failure; frames is every frame handed to the radio. */
  datatype Batch = Batch(link: Link, sent: nat, frames: seq<seq<byte>>)

  /** Sends events in order until one fails. */
  function SendAll(link: Link, events: seq<Event>, envs: seq<Env>): (r: Batch)
    requires |events| <= |envs|
    ensures r.sent <= |events|
  {
    if events == [] then Batch(link, 0, []) else
      var n := |events| - 1;
      var r := SendAll(link, events[..n], envs);
      if r.sent < n then r else
        var one := SendOne(r.link, events[n], envs[n]);
        Batch(one.link, if one.sent then n + 1 else n, r.frames + Attempts(one.onAir))
  }

  /** How many fetches in a row obtain the lock. */
  function Granted(locks: seq<bool>): (n: nat)
    ensures n <= |locks| && (n < |locks| ==> !locks[n]) && forall k :: 0 <= k < n ==> locks[k]
  {
    if locks == [] || !locks[0] then 0 else 1 + Granted(locks[1..])
  }

  /** One turn of an answer: whether an event was found and sent, its id, and the frames handed to the radio. */
  datatype Turn = Turn(link: Link, found: bool, sent: bool, id: u32, frames: seq<seq<byte>>)

  function TakeTurn(link: Link, view: seq<Event>, last: u32, locked: bool, env: Env): Turn {
    var next := if locked then Take(Since(view, last), 1) else [];
    if next == [] then Turn(link, false, false, last, [])
    else
      var one := SendOne(link, next[0], env);
      Turn(one.link, true, one.sent, next[0].id, Attempts(one.onAir))
  }

  /** A sync request on the way: the link and the ring it starts from, which fetches obtain the lock of the
      history, and the surroundings of each send. */
  datatype Request = Request(link: Link, view: seq<Event>, since: u32, locks: seq<bool>, envs: seq<Env>) {

    /** The oldest events after the requested id, as many as fetches in a row obtain the lock. */
    function Page(): (page: seq<Event>)
      ensures |page| <= |locks|
    {
      SyncPaging.OneByOne(view, since, Granted(locks))
    }

    function Answer(): Batch
      requires |locks| <= |envs|
    {
      SendAll(link, Page(), envs)
    }
  }

  /** The frame is the acknowledgement of a message, sent under number own. */
  predicate Acknowledges(frame: seq<byte>, own: u16, number: u16) {
    && Frame.Decode(frame).Accepted?
    && var m := Frame.Decode(frame).message;
    && m.msgType == 0x02 && m.seqNum == own && |m.payload| == 2
    && var high: int, low: int := m.payload[0], m.payload[1];
    256 * high + low == number
  }

  /** The frame is the rejection of a message, sent under number own. */
  predicate Rejects(frame: seq<byte>, own: u16, number: u16, error: byte) {
    && Frame.Decode(frame).Accepted?
    && var m := Frame.Decode(frame).message;
    && m.msgType == 0x03 && m.seqNum == own && |m.payload| == 3 && m.payload[2] == error
    && var high: int, low: int := m.payload[0], m.payload[1];
    256 * high + low == number
  }

  /** The frame of a reply says what the reply says. */
  lemma AckSays(own: u16, number: u16)
    ensures Acknowledges(Frame.Encode(Frame.Message(MSG_ACK, own, Be16(number))), own, number)
  {
    var m := Frame.Message(MSG_ACK, own, Be16(number));
    hide Frame.Decode, Frame.Encode;
    Frame.DecodeEncode(m);
  }

  lemma NackSays(own: u16, number: u16, error: byte)
    ensures Rejects(Frame.Encode(Frame.Message(MSG_NACK, own, Be16(number) + [error])), own, number, error)
  {
    var m := Frame.Message(MSG_NACK, own, Be16(number) + [error]);
    hide Frame.Decode, Frame.Encode;
    Frame.DecodeEncode(m);
  }

  function AfterReply(link: Link, msgType: byte, payload: seq<byte>, env: Env): Link {
    if env.connected && env.locked then Send(link, msgType, payload, false, env.radioOk, env.now).link else link
  }

  /** Every detection event that waits carries an event id. */
  ghost predicate CarriesIds(t: Table) {
    forall i :: 0 <= i < |t| && t[i].active && t[i].msgType == MSG_DETECTION_EVENT ==>
        |t[i].data| >= Frame.HEADER_SIZE + 4
  }

  /** A slot overwritten by a free one, or by one that carries an id if it must, keeps the table so. */
  lemma CarriesIdsUpdate(t: Table, i: nat, s: Slot)
    requires CarriesIds(t) && i < |t|
    requires s.active && s.msgType == MSG_DETECTION_EVENT ==> |s.data| >= Frame.HEADER_SIZE + 4
    ensures CarriesIds(t[i := s])
  {
  }

  /** Which locks an ACK obtains: for its check, for each of its two sections, and the history's. */
  datatype AckLocks = AckLocks(check: bool, first: bool, second: bool, history: bool)

  /** The guard after acknowledgements of nothing at these times. */
  function AfterPhantoms(g: Guard, nows: seq<u32>): (r: Guard)
    requires g.invalidAckCount < 10
    ensures r.invalidAckCount < 10
  {
    if nows == [] then g else AfterPhantoms(g, nows[..|nows| - 1]).Phantom(nows[|nows| - 1])
  }

  /** No two of them lie more than a minute apart, starting from the last one before. */
  predicate Dense(last: u32, nows: seq<u32>) {
    forall k :: 0 <= k < |nows| ==> (nows[k] - if k == 0 then last else nows[k - 1]) % U32_COUNT <= 60000
  }

  /** The guard counts them in tens, and after a quiet minute starts again from one. */
  lemma {:induction false} PhantomsCount(g: Guard, nows: seq<u32>)
    requires g.invalidAckCount < 10 && Dense(g.lastSecurityEvent, nows)
    ensures
      var r := AfterPhantoms(g, nows);
      && r.invalidAckCount == (g.invalidAckCount + |nows|) % 10
      && r.lastSecurityEvent == if nows == [] then g.lastSecurityEvent else nows[|nows| - 1]
  {
    if nows != [] {
      var n := |nows| - 1;
      assert n > 0 ==> nows[..n][n - 1] == nows[n - 1];
      assert (nows[n] - if n == 0 then g.lastSecurityEvent else nows[n - 1]) % U32_COUNT <= 60000;
      PhantomsCount(g, nows[..n]);
      PhantomCounts(AfterPhantoms(g, nows[..n]), nows[n]);
      hide Guard.Phantom;
      NextOfTen(g.invalidAckCount + n);
    }
  }

  lemma PhantomCounts(g: Guard, now: u32)
    requires g.invalidAckCount < 10 && (now - g.lastSecurityEvent) % U32_COUNT <= 60000
    ensures g.Phantom(now) == Guard((g.invalidAckCount + 1) % 10, now)
  {
  }

  lemma NextOfTen(n: nat)
    ensures (n % 10 + 1) % 10 == (n + 1) % 10
  {
  }

  lemma QuietMinuteRestarts(g: Guard, now: u32)
    requires g.invalidAckCount < 10 && (now - g.lastSecurityEvent) % U32_COUNT > 60000
    ensures g.Phantom(now) == Guard(1, now)
  {
  }

  class ProtocolHandler {
    const pendingMessages: array<Slot>
    const txFrameBuffer: array<byte>
    const radio: Radio
    const timing: Config
    var txSeqNum: u16
    var detectionWindowStart: u32
    var detectionEventCount: byte
    var invalidAckCount: byte
    var lastSecurityEvent: u32

    ghost predicate Valid()
      reads this, pendingMessages
    {
      && pendingMessages.Length == MAX_PENDING_MESSAGES
      && txFrameBuffer.Length == Frame.MAX_FRAME_SIZE
      && invalidAckCount < INVALID_ACK_THRESHOLD
      && TheGate().Valid()
      && CarriesIds(pendingMessages[..])
    }

    ghost function TheLink(): Link
      reads this, pendingMessages
    {
      Link(pendingMessages[..], txSeqNum)
    }

    ghost function TheGate(): Governor.Gate
      reads this
    {
      Governor.Gate(detectionWindowStart, detectionEventCount)
    }

    ghost function TheGuard(): Guard
      reads this
    {
      Guard(invalidAckCount, lastSecurityEvent)
    }

    constructor (radio: Radio, timing: Config)
      ensures Valid() && fresh(pendingMessages) && fresh(txFrameBuffer) && this.radio == radio && this.timing == timing
      ensures txSeqNum == 0 && pendingMessages.Length == 64
      ensures forall i :: 0 <= i < pendingMessages.Length ==> !pendingMessages[i].active
    {
      pendingMessages := new Slot[MAX_PENDING_MESSAGES](_ => Slot(false, 0, 0, 0, 0, []));
      txFrameBuffer := new byte[Frame.MAX_FRAME_SIZE](_ => 0);
      this.radio, this.timing := radio, timing;
      txSeqNum, detectionWindowStart, detectionEventCount, invalidAckCount, lastSecurityEvent := 0, 0, 0, 0, 0;
    }

    // ---------- the pending table

    method FindFreeSlot() returns (slot: int)
      ensures slot == if FirstFree(pendingMessages[..]) < pendingMessages.Length then FirstFree(pendingMessages[..])
          else -1
    {
      for i := 0 to pendingMessages.Length
        invariant forall k :: 0 <= k < i ==> pendingMessages[k].active
      {
        if !pendingMessages[i].active {
          return i;
        }
      }
      return -1;
    }

    method TrackPendingLocked(seqNum: u16, msgType: byte, data: array<byte>, len: nat, now: u32) returns (ok: bool)
      requires len <= data.Length
      modifies pendingMessages
      ensures var t := old(pendingMessages[..]);
        && (ok <==> FirstFree(t) < |t|)
        && pendingMessages[..] == if ok then t[FirstFree(t) := NewSlot(seqNum, msgType, data[..len], now)] else t
    {
      var slot := FindFreeSlot();
      if slot < 0 {
        return false;
      }
      pendingMessages[slot] := Slot(true, seqNum, now, 0, msgType, data[..len]);
      return true;
    }

    method FindHolding(seqNum: u16) returns (found: bool, slot: nat)
      ensures slot == FirstHolding(pendingMessages[..], seqNum)
      ensures found <==> slot < pendingMessages.Length
    {
      slot := 0;
      while slot < pendingMessages.Length
        invariant slot <= pendingMessages.Length
        invariant forall k :: 0 <= k < slot ==> !pendingMessages[k].Holds(seqNum)
      {
        if pendingMessages[slot].active && pendingMessages[slot].seqNum == seqNum {
          return true, slot;
        }
        slot := slot + 1;
      }
      found := false;
    }

    method ClearPendingLocked(seqNum: u16) returns (found: bool)
      modifies pendingMessages
      ensures pendingMessages[..] == Clear(old(pendingMessages[..]), seqNum)
      ensures found <==> FirstHolding(old(pendingMessages[..]), seqNum) < pendingMessages.Length
    {
      var slot;
      found, slot := FindHolding(seqNum);
      if found {
        pendingMessages[slot] := pendingMessages[slot].Freed();
      }
    }

    method ClearAllPending()
      modifies pendingMessages
      ensures pendingMessages[..] == ClearAll(old(pendingMessages[..]))
    {
      ghost var t := pendingMessages[..];
      for i := 0 to pendingMessages.Length
        invariant forall k :: 0 <= k < i ==> pendingMessages[k] == t[k].Freed()
        invariant forall k :: i <= k < |t| ==> pendingMessages[k] == t[k]
      {
        pendingMessages[i] := pendingMessages[i].Freed();
      }
    }

    method GetPendingCount() returns (count: nat)
      ensures count == CountActive(pendingMessages[..])
    {
      count := 0;
      for i := 0 to pendingMessages.Length
        invariant count == CountActive(pendingMessages[..i])
      {
        assert pendingMessages[..i + 1][..i] == pendingMessages[..i];
        if pendingMessages[i].active {
          count := count + 1;
        }
      }
      assert pendingMessages[..pendingMessages.Length] == pendingMessages[..];
    }

    method ResetForNewConnection(locked: bool)
      requires Valid()
      modifies this`txSeqNum, this`invalidAckCount, this`lastSecurityEvent, pendingMessages
      ensures Valid()
      ensures TheLink() == Link(if locked then ClearAll(old(pendingMessages[..])) else old(pendingMessages[..]), 0)
      ensures TheGuard() == Guard(0, 0)
    {
      if locked {
        ClearAllPending();
      }
      invalidAckCount, lastSecurityEvent := 0, 0;
      txSeqNum := 0;
    }

    // ---------- sending

    method SendMessage(msgType: byte, payload: array<byte>, payloadLen: nat, requireAck: bool, env: Env)
        returns (sent: bool)
      requires Valid() && payload != txFrameBuffer && payloadLen <= payload.Length
      requires msgType == MSG_DETECTION_EVENT ==> payloadLen >= 4
      modifies this`txSeqNum, pendingMessages, txFrameBuffer, radio
      ensures Valid()
      ensures !env.connected || !env.locked ==>
                !sent && TheLink() == old(TheLink()) && radio.attempted == old(radio.attempted)
      ensures env.connected && env.locked ==>
                var r := Send(old(TheLink()), msgType, payload[..payloadLen], requireAck, env.radioOk, env.now);
                TheLink() == r.link && sent == r.sent && radio.attempted == old(radio.attempted) + Attempts(r.onAir)
    {
      hide Frame.Encode, CarriesIds;
      if !env.connected {
        return false;
      }
      if !env.locked {
        return false;
      }
      ghost var t := pendingMessages[..];
      var seqNum := txSeqNum;
      txSeqNum := (txSeqNum + 1) % U16_COUNT;
      var buildSuccess, frameLen := Frame.BuildFrame(msgType, payload, payloadLen, seqNum, txFrameBuffer);
      if !buildSuccess {
        return false;
      }
      ghost var frame := txFrameBuffer[..frameLen];
      ghost var free := FirstFree(t);
      if free < |t| {
        CarriesIdsUpdate(t, free, NewSlot(seqNum, msgType, frame, env.now));
      }
      if requireAck {
        var tracked := TrackPendingLocked(seqNum, msgType, txFrameBuffer, frameLen, env.now);
        if !tracked {
          return false;
        }
      }
      radio.SendNotification(txFrameBuffer, frameLen);
      sent := env.radioOk;
      if !sent {
        ghost var u := pendingMessages[..];
        ghost var i := FirstHolding(u, seqNum);
        if i < |u| {
          CarriesIdsUpdate(u, i, u[i].Freed());
        }
        var _ := ClearPendingLocked(seqNum);
      }
    }

    /** Hands exactly one frame to the radio, the acknowledgement of that number, or none without a
        connection or the lock. */
    method SendAck(ackedSeqNum: u16, env: Env)
      requires Valid()
      modifies this`txSeqNum, pendingMessages, txFrameBuffer, radio
      ensures Valid()
      ensures TheLink() == AfterReply(old(TheLink()), MSG_ACK, Be16(ackedSeqNum), env)
      ensures if env.connected && env.locked then
                exists frame :: radio.attempted == old(radio.attempted) + [frame]
                    && Acknowledges(frame, old(txSeqNum), ackedSeqNum)
              else radio.attempted == old(radio.attempted)
    {
      hide Acknowledges, Rejects, Frame.Encode;
      var payload := new byte[2];
      payload[0], payload[1] := ackedSeqNum / 0x100, ackedSeqNum % 0x100;
      assert payload[..2] == Be16(ackedSeqNum);
      AckSays(txSeqNum, ackedSeqNum);
      var _ := SendMessage(MSG_ACK, payload, 2, false, env);
    }

    method SendNack(nackedSeqNum: u16, error: byte, env: Env)
      requires Valid()
      modifies this`txSeqNum, pendingMessages, txFrameBuffer, radio
      ensures Valid()
      ensures TheLink() == AfterReply(old(TheLink()), MSG_NACK, Be16(nackedSeqNum) + [error], env)
      ensures if env.connected && env.locked then
                exists frame :: radio.attempted == old(radio.attempted) + [frame]
                    && Rejects(frame, old(txSeqNum), nackedSeqNum, error)
              else radio.attempted == old(radio.attempted)
    {
      hide Acknowledges, Rejects, Frame.Encode;
      var payload := new byte[3];
      payload[0], payload[1], payload[2] := nackedSeqNum / 0x100, nackedSeqNum % 0x100, error;
      assert payload[..3] == Be16(nackedSeqNum) + [error];
      NackSays(txSeqNum, nackedSeqNum, error);
      var _ := SendMessage(MSG_NACK, payload, 3, false, env);
    }

    /** The governor counts an event as soon as it lets it through, sent or not. */
    method SendDetectionEvent(event: Event, bypassGovernor: bool, env: Env) returns (sent: bool)
      requires Valid()
      modifies this`txSeqNum, this`detectionWindowStart, this`detectionEventCount, pendingMessages, txFrameBuffer, radio
      ensures Valid()
      ensures TheGate() == if bypassGovernor then old(TheGate()) else old(TheGate()).Offered(env.now)
      ensures
        if (!bypassGovernor && !old(TheGate()).Admits(env.now)) || !env.connected || !env.locked then
          !sent && TheLink() == old(TheLink()) && radio.attempted == old(radio.attempted)
        else
          var r := Send(old(TheLink()), MSG_DETECTION_EVENT, Serialize(event), true, env.radioOk, env.now);
          TheLink() == r.link && sent == r.sent && radio.attempted == old(radio.attempted) + Attempts(r.onAir)
    {
      hide CarriesIds, Serialize, Send;
      if !bypassGovernor {
        var now := env.now;
        if (now - detectionWindowStart) % U32_COUNT > Governor.DETECTION_RATE_WINDOW_MS {
          detectionWindowStart, detectionEventCount := now, 0;
        }
        if detectionEventCount >= Governor.MAX_DETECTIONS_PER_WINDOW {
          return false;
        }
        detectionEventCount := detectionEventCount + 1;
      }
      var bytes := Serialize(event);
      var payload := new byte[EVENT_SIZE](i requires 0 <= i < EVENT_SIZE => bytes[i]);
      assert payload[..EVENT_SIZE] == bytes;
      sent := SendMessage(MSG_DETECTION_EVENT, payload, EVENT_SIZE, true, env);
    }

    // ---------- acknowledgements

    method ValidateAckSecurity(seqNum: u16, now: u32, locked: bool) returns (found: bool)
      requires Valid()
      modifies this`invalidAckCount, this`lastSecurityEvent
      ensures Valid()
      ensures found <==> locked && FirstHolding(pendingMessages[..], seqNum) < pendingMessages.Length
      ensures TheGuard() == if found then old(TheGuard()) else old(TheGuard()).Phantom(now)
    {
      found := false;
      if locked {
        var slot;
        found, slot := FindHolding(seqNum);
      }
      if found {
        return;
      }
      if (now - lastSecurityEvent) % U32_COUNT > SECURITY_RESET_WINDOW_MS {
        invalidAckCount := 0;
      }
      invalidAckCount := invalidAckCount + 1;
      lastSecurityEvent := now;
      if invalidAckCount >= INVALID_ACK_THRESHOLD {
        invalidAckCount := 0;
      }
    }

    /** The first critical section: finds the slot, frees it unless it carries a detection event. */
    method AckFirstSection(seqNum: u16) returns (r: Lookup)
      requires Valid()
      modifies pendingMessages
      ensures Valid()
      ensures r == LookUp(old(pendingMessages[..]), seqNum)
      ensures pendingMessages[..] == AfterLookup(old(pendingMessages[..]), seqNum)
    {
      var found, i := FindHolding(seqNum);
      if !found {
        return NotFound;
      }
      if pendingMessages[i].msgType == MSG_DETECTION_EVENT {
        var eventId := LeadingId(pendingMessages[i].data[Frame.HEADER_SIZE..]);
        return Detection(i, eventId);
      }
      pendingMessages[i] := pendingMessages[i].Freed();
      return Plain(i);
    }

    /** The second critical section: frees the slot only if it still holds the number. */
    method AckSecondSection(slot: nat, seqNum: u16) returns (found: bool)
      requires Valid() && slot < pendingMessages.Length
      modifies pendingMessages
      ensures Valid()
      ensures pendingMessages[..] == AfterRecheck(old(pendingMessages[..]), slot, seqNum)
      ensures found <==> old(pendingMessages[slot]).Holds(seqNum)
    {
      found := pendingMessages[slot].active && pendingMessages[slot].seqNum == seqNum;
      if found {
        pendingMessages[slot] := pendingMessages[slot].Freed();
      }
    }

    /** Handles an ACK when no other task runs in the gap between the two sections: the message is
        freed, and its event, if it carried one, is marked; a missed lock stops it where it is. */
    method HandleAck(payload: seq<byte>, history: HistoryService, now: u32, locks: AckLocks)
      requires Valid() && history.Valid()
      modifies this`invalidAckCount, this`lastSecurityEvent, pendingMessages, history`crc32, history.buffer
      ensures Valid() && history.Valid()
      ensures |payload| < 2 ==>
                TheLink() == old(TheLink()) && TheGuard() == old(TheGuard())
                    && history.Contents() == old(history.Contents())
      ensures |payload| >= 2 ==>
                var seqNum, t, guard := FromBe16(payload[0], payload[1]), old(pendingMessages[..]), old(TheGuard());
                var r := LookUp(t, seqNum);
                var known := locks.check && !r.NotFound?;
                var frees := known && locks.first && (r.Plain? || locks.second);
                var marks := known && locks.first && r.Detection? && locks.history;
                && pendingMessages[..] == (if frees then Clear(t, seqNum) else t)
                && TheGuard() == (if !known then guard.Phantom(now)
                                  else if frees then guard.(invalidAckCount := 0) else guard)
                && history.Contents() == if marks then MarkSynced(old(history.Contents()), r.eventId)
                                         else old(history.Contents())
    {
      if |payload| < 2 {
        return;
      }
      hide MarkSynced, CarriesIds, EventIdIn, LookUp, Clear, FirstHolding, Guard.Phantom, RingView, RingChecksum;
      Acknowledge(FromBe16(payload[0], payload[1]), history, now, locks);
    }

    /** Handles an ACK of a number. */
    method Acknowledge(ackedSeq: u16, history: HistoryService, now: u32, locks: AckLocks)
      requires Valid() && history.Valid()
      modifies this`invalidAckCount, this`lastSecurityEvent, pendingMessages, history`crc32, history.buffer
      ensures Valid() && history.Valid()
      ensures
        var t, guard := old(pendingMessages[..]), old(TheGuard());
        var r := LookUp(t, ackedSeq);
        var known := locks.check && !r.NotFound?;
        var frees := known && locks.first && (r.Plain? || locks.second);
        var marks := known && locks.first && r.Detection? && locks.history;
        && pendingMessages[..] == (if frees then Clear(t, ackedSeq) else t)
        && TheGuard() == (if !known then guard.Phantom(now)
                          else if frees then guard.(invalidAckCount := 0) else guard)
        && history.Contents() == if marks then MarkSynced(old(history.Contents()), r.eventId)
                                 else old(history.Contents())
    {
      hide MarkSynced, CarriesIds, EventIdIn, LookUp, AfterLookup, AfterRecheck, Clear, FirstHolding, Guard.Phantom,
          RingView, RingCount, RingChecksum, HistoryService.Valid, HistoryService.Contents, Governor.Gate.Valid;
      SectionsClear(pendingMessages[..], ackedSeq);
      var known := ValidateAckSecurity(ackedSeq, now, locks.check);
      if !known {
        return;
      }
      var found := AckSections(ackedSeq, history, locks);
      if found {
        invalidAckCount := 0;
      }
    }

    /** The two sections of a known ACK, one right after the other. */
    method AckSections(ackedSeq: u16, history: HistoryService, locks: AckLocks) returns (found: bool)
      requires Valid() && history.Valid() && !LookUp(pendingMessages[..], ackedSeq).NotFound?
      modifies pendingMessages, history`crc32, history.buffer
      ensures Valid() && history.Valid()
      ensures
        var t := old(pendingMessages[..]);
        var r := LookUp(t, ackedSeq);
        && (found <==> locks.first && (r.Plain? || locks.second))
        && pendingMessages[..] == (if found then Clear(t, ackedSeq) else t)
        && history.Contents() == if locks.first && r.Detection? && locks.history
                                 then MarkSynced(old(history.Contents()), r.eventId)
                                 else old(history.Contents())
    {
      SectionsClear(pendingMessages[..], ackedSeq);
      hide MarkSynced, CarriesIds, EventIdIn, LookUp, AfterLookup, AfterRecheck, Clear, FirstHolding, RingView,
          RingChecksum;
      if !locks.first {
        return false;
      }
      var r := AckFirstSection(ackedSeq);
      found := r.Plain?;
      if r.Detection? {
        var _ := history.MarkAsSynced(r.eventId, locks.history);
        if !locks.second {
          return false;
        }
        found := AckSecondSection(r.slot, ackedSeq);
      }
    }

    method HandleNack(payload: seq<byte>, locked: bool)
      requires Valid()
      modifies pendingMessages
      ensures Valid()
      ensures pendingMessages[..] == if |payload| < 3 || !locked then old(pendingMessages[..])
                                     else Clear(old(pendingMessages[..]), FromBe16(payload[0], payload[1]))
    {
      if |payload| < 3 {
        return;
      }
      if !locked {
        return;
      }
      var _ := ClearPendingLocked(FromBe16(payload[0], payload[1]));
    }

    // ---------- retries

    /** The critical section of a pass for one slot: if overdue it is retransmitted or given up. */
    method RetrySlot(i: nat, now: u32, locked: bool)
      requires Valid() && i < pendingMessages.Length
      modifies pendingMessages, radio
      ensures Valid()
      ensures !locked ==> pendingMessages[..] == old(pendingMessages[..]) && radio.attempted == old(radio.attempted)
      ensures var t := old(pendingMessages[..]);
        && pendingMessages[..] == t[i := Visited(t[i], locked, now, timing)]
        && radio.attempted == old(radio.attempted)
                              + if locked && Judge(t[i], now, timing).Retry? then [t[i].data] else []
    {
      var slot := pendingMessages[i];
      CarriesIdsUpdate(pendingMessages[..], i, Retried(slot, now, timing));
      hide CarriesIds;
      if !locked || !slot.active {
        assert pendingMessages[..] == old(pendingMessages[..])[i := slot];
        return;
      }
      if (now - slot.sentTime) % U32_COUNT > timing.ackTimeoutMs {
        if slot.retryCount < timing.maxRetryCount {
          slot := slot.(retryCount := slot.retryCount + 1, sentTime := now);
          radio.SendCopy(slot.data);
        } else {
          slot := slot.Freed();
        }
      }
      pendingMessages[i] := slot;
      assert pendingMessages[..] == old(pendingMessages[..])[i := slot];
    }

    /** One pass over the table with one reading of the clock; a slot whose lock is missed is skipped. */
    method ProcessRetries(connected: bool, now: u32, locked: seq<bool>)
      requires Valid() && |locked| == MAX_PENDING_MESSAGES
      modifies pendingMessages, radio
      ensures Valid()
      ensures !connected ==> pendingMessages[..] == old(pendingMessages[..]) && radio.attempted == old(radio.attempted)
      ensures connected ==> pendingMessages[..] == Pass(old(pendingMessages[..]), locked, now, timing)
      ensures connected ==>
                radio.attempted == old(radio.attempted) + PassFrames(old(pendingMessages[..]), locked, now, timing)
    {
      if !connected {
        return;
      }
      ghost var t, before, frames: seq<seq<byte>> := pendingMessages[..], radio.attempted, [];
      PassStart(t, locked, now, timing);
      hide PassSoFar, Visited, CarriesIds, Judge, PassFrames, Pass, Governor.Gate.Valid;
      for i := 0 to pendingMessages.Length
        invariant Valid() && PassSoFar(t, locked, i, now, timing, pendingMessages[..], frames)
        invariant radio.attempted == before + frames
      {
        PassStep(t, locked, i, now, timing, pendingMessages[..], frames);
        frames := frames + if locked[i] && Judge(t[i], now, timing).Retry? then [t[i].data] else [];
        RetrySlot(i, now, locked[i]);
      }
      PassDone(t, locked, now, timing, pendingMessages[..], frames);
    }

    // ---------- sync

    /** Fetches the oldest event after an id and sends it past the governor. */
    method SendNextSince(last: u32, history: HistoryService, locked: bool, env: Env)
      returns (found: bool, sent: bool, id: u32)
      requires Valid() && history.Valid()
      modifies this`txSeqNum, this`detectionWindowStart, this`detectionEventCount, pendingMessages, txFrameBuffer, radio
      ensures Valid() && TheGate() == old(TheGate())
      ensures history.Valid() && history.View() == old(history.View())
      ensures
        var turn := TakeTurn(old(TheLink()), history.View(), last, locked, env);
        && turn == Turn(TheLink(), found, sent, id, turn.frames) && (sent ==> found)
        && radio.attempted == old(radio.attempted) + turn.frames
    {
      hide Since, CarriesIds, Serialize, RingView, RingChecksum, Pending.Send;
      var batch := history.GetEventsSince(last, 1, locked);
      found, sent, id := |batch| > 0, false, last;
      if found {
        id := batch[0].id;
        sent := SendDetectionEvent(batch[0], true, env);
      } else {
        assert radio.attempted == old(radio.attempted) + [];
      }
    }

    /** So many events of a request went out, with these frames on top of what the radio had before. */
    ghost predicate Answering(history: HistoryService, r: Request, before: seq<seq<byte>>, k: nat, more: bool,
        last: u32, frames: seq<seq<byte>>)
      reads this, pendingMessages, history, history.buffer, radio
    {
      && Valid() && history.Valid() && history.View() == r.view
      && OnPage(r, k, more, TheLink(), last, frames) && radio.attempted == before + frames
    }

    /** The k-th turn of an answer. */
    method AnswerTurn(history: HistoryService, k: nat, last: u32, locked: bool, env: Env, ghost r: Request,
        ghost before: seq<seq<byte>>, ghost was: seq<seq<byte>>)
      returns (hasMore: bool, id: u32, ghost frames: seq<seq<byte>>)
      requires k < |r.locks| <= |r.envs| && locked == r.locks[k] && env == r.envs[k]
      requires Answering(history, r, before, k, true, last, was)
      modifies this`txSeqNum, this`detectionWindowStart, this`detectionEventCount, pendingMessages, txFrameBuffer, radio
      ensures TheGate() == old(TheGate())
      ensures Answering(history, r, before, if hasMore then k + 1 else k, hasMore, id, frames)
    {
      hide OnPage, TakeTurn, SendOne, Since, CarriesIds, HistoryService.Sealed, HistoryService.View,
        HistoryService.Bounds, HistoryService.Valid, ProtocolHandler.Valid, TheLink, TheGate, RingView, RingChecksum;
      NextOnPage(r, k, TheLink(), last, was);
      ghost var turn := TakeTurn(TheLink(), r.view, last, locked, env);
      frames := was + turn.frames;
      assert before + frames == before + was + turn.frames;
      var found;
      found, hasMore, id := SendNextSince(last, history, locked, env);
    }

    /** Sends the oldest events after the requested id, at most ten, fetching one at a time and
        stopping at the first that fails, or at the first fetch that misses the lock of the history.
        envs holds the surroundings of each send, locks what each fetch obtains. */
    method SendPage(sinceId: u32, history: HistoryService, locks: seq<bool>, envs: seq<Env>)
      returns (syncedCount: byte)
      requires Valid() && history.Valid() && |envs| >= 10 && |locks| == 10
      modifies this`txSeqNum, this`detectionWindowStart, this`detectionEventCount, pendingMessages, txFrameBuffer, radio
      ensures Valid() && TheGate() == old(TheGate())
      ensures var r := Request(old(TheLink()), history.View(), sinceId, locks, envs).Answer();
        syncedCount == r.sent && TheLink() == r.link && radio.attempted == old(radio.attempted) + r.frames
    {
      ghost var r := Request(TheLink(), history.View(), sinceId, locks, envs);
      ghost var before, frames: seq<seq<byte>> := radio.attempted, [];
      NothingSent(r);
      hide OnPage, Request.Answer, ProtocolHandler.Valid, HistoryService.Valid, HistoryService.View, TheLink, TheGate;
      assert Answering(history, r, before, 0, true, sinceId, frames);
      hide Answering;
      syncedCount := 0;
      var hasMore, lastSyncedId := true, sinceId;
      while syncedCount < SyncPaging.PAGE && hasMore
        invariant syncedCount <= SyncPaging.PAGE && TheGate() == old(TheGate())
        invariant Answering(history, r, before, syncedCount, hasMore, lastSyncedId, frames)
        decreases SyncPaging.PAGE - syncedCount, hasMore
      {
        hasMore, lastSyncedId, frames := AnswerTurn(history, syncedCount, lastSyncedId, locks[syncedCount],
            envs[syncedCount], r, before, frames);
        if hasMore {
          syncedCount := syncedCount + 1;
        }
      }
      Answered(history, r, before, syncedCount, hasMore, lastSyncedId, frames);
    }

    lemma Answered(history: HistoryService, r: Request, before: seq<seq<byte>>, k: nat, more: bool, last: u32,
        frames: seq<seq<byte>>)
      requires |r.locks| <= |r.envs| && (more ==> k == |r.locks|)
      requires Answering(history, r, before, k, more, last, frames)
      ensures Valid() && history.View() == r.view
      ensures r.Answer() == Batch(TheLink(), k, frames) && radio.attempted == before + frames
    {
      hide OnPage, Request.Answer, ProtocolHandler.Valid, HistoryService.Valid, HistoryService.View, TheLink;
      PageDone(r, k, more, TheLink(), last, frames);
    }

    method HandleSyncRequest(seqNum: u16, payload: seq<byte>, history: HistoryService, locks: seq<bool>,
        envs: seq<Env>, answer: Env) returns (syncedCount: byte)
      requires Valid() && history.Valid() && |envs| >= 10 && |locks| == 10
      modifies this`txSeqNum, this`detectionWindowStart, this`detectionEventCount, pendingMessages, txFrameBuffer, radio
      ensures Valid() && TheGate() == old(TheGate())
      ensures |payload| < 4 ==>
                var refusal := Be16(seqNum) + [ERR_INVALID_PAYLOAD];
                && syncedCount == 0 && TheLink() == AfterReply(old(TheLink()), MSG_NACK, refusal, answer)
                && if answer.connected && answer.locked then
                     exists frame :: radio.attempted == old(radio.attempted) + [frame]
                         && Rejects(frame, old(txSeqNum), seqNum, 0x0A)
                   else radio.attempted == old(radio.attempted)
      ensures |payload| >= 4 ==>
                var r := Request(old(TheLink()), history.View(), FromBe32(payload[..4]), locks, envs).Answer();
                && syncedCount == r.sent
                && TheLink() == AfterReply(r.link, MSG_ACK, Be16(seqNum), answer)
                && if answer.connected && answer.locked then
                     exists frame :: radio.attempted == old(radio.attempted) + r.frames + [frame]
                         && Acknowledges(frame, r.link.txSeqNum, seqNum)
                   else radio.attempted == old(radio.attempted) + r.frames
    {
      hide Acknowledges, Rejects, Request.Answer, AfterReply, Since, RingView, RingChecksum, CarriesIds;
      if |payload| < 4 {
        SendNack(seqNum, ERR_INVALID_PAYLOAD, answer);
        return 0;
      }
      syncedCount := SendPage(FromBe32(payload[..4]), history, locks, envs);
      SendAck(seqNum, answer);
    }
  }

  /** The two sections of an ACK with nothing between them free exactly the slot that holds its number. */
  lemma SectionsClear(t: Table, seqNum: u16)
    ensures LookUp(t, seqNum).NotFound? <==> FirstHolding(t, seqNum) == |t|
    ensures LookUp(t, seqNum).NotFound? ==> Clear(t, seqNum) == AfterLookup(t, seqNum) == t
    ensures LookUp(t, seqNum).Plain? ==> Clear(t, seqNum) == AfterLookup(t, seqNum)
    ensures LookUp(t, seqNum).Detection? ==>
              var i := LookUp(t, seqNum).slot;
              AfterLookup(t, seqNum) == t && i < |t| && t[i].Holds(seqNum)
                  && AfterRecheck(t, i, seqNum) == Clear(t, seqNum)
  {
  }

  // ---------- facts about a pass and about a page

  /** u is t after a pass came to slot i, having transmitted these frames. */
  ghost predicate PassSoFar(t: Table, locked: seq<bool>, i: nat, now: u32, c: Config, u: Table,
      frames: seq<seq<byte>>)
  {
    && i <= |t| == |locked| == |u|
    && (forall k :: 0 <= k < i ==> u[k] == Visited(t[k], locked[k], now, c))
    && (forall k :: i <= k < |t| ==> u[k] == t[k])
    && frames == PassFrames(t[..i], locked[..i], now, c)
  }

  lemma PassStart(t: Table, locked: seq<bool>, now: u32, c: Config)
    requires |locked| == |t|
    ensures PassSoFar(t, locked, 0, now, c, t, [])
  {
  }

  lemma PassStep(t: Table, locked: seq<bool>, i: nat, now: u32, c: Config, u: Table, frames: seq<seq<byte>>)
    requires i < |t| && PassSoFar(t, locked, i, now, c, u, frames)
    ensures i < |t| == |locked| == |u| && u[i] == t[i]
    ensures
      var more := if locked[i] && Judge(t[i], now, c).Retry? then [t[i].data] else [];
      PassSoFar(t, locked, i + 1, now, c, u[i := Visited(u[i], locked[i], now, c)], frames + more)
  {
    hide Visited, Judge;
    assert t[..i + 1][..i] == t[..i] && locked[..i + 1][..i] == locked[..i];
  }

  lemma PassDone(t: Table, locked: seq<bool>, now: u32, c: Config, u: Table, frames: seq<seq<byte>>)
    requires PassSoFar(t, locked, |t|, now, c, u, frames)
    ensures |locked| == |t| && u == Pass(t, locked, now, c) && frames == PassFrames(t, locked, now, c)
  {
    hide Visited, Judge;
    assert t[..|t|] == t && locked[..|t|] == locked;
  }

  /** The first k events of a page went out, leaving the link and the radio so. */
  ghost predicate SentSoFar(link: Link, page: seq<Event>, envs: seq<Env>, k: nat, now: Link, frames: seq<seq<byte>>) {
    k <= |page| <= |envs| && SendAll(link, page[..k], envs) == Batch(now, k, frames)
  }

  lemma OneMoreSent(link: Link, page: seq<Event>, envs: seq<Env>, k: nat, now: Link, frames: seq<seq<byte>>)
    requires SentSoFar(link, page, envs, k, now, frames)
    ensures
      k < |page| <= |envs| ==>
        var one := SendOne(now, page[k], envs[k]);
        if one.sent then SentSoFar(link, page, envs, k + 1, one.link, frames + Attempts(one.onAir))
        else SendAll(link, page, envs) == Batch(one.link, k, frames + Attempts(one.onAir))
  {
    hide SendOne;
    SendAllStep(link, page, k, envs);
  }

  lemma AllSent(link: Link, page: seq<Event>, envs: seq<Env>, k: nat, now: Link, frames: seq<seq<byte>>)
    requires SentSoFar(link, page, envs, k, now, frames) && k == |page|
    ensures |page| <= |envs| && SendAll(link, page, envs) == Batch(now, k, frames)
  {
    assert page[..k] == page;
  }

  /** The first k events of the page went out, and last is the id of the last of them; or, if there is no
      more, the answer is complete. */
  ghost predicate OnPage(r: Request, k: nat, more: bool, now: Link, last: u32, frames: seq<seq<byte>>) {
    var page := r.Page();
    if more then SentSoFar(r.link, page, r.envs, k, now, frames) && last == SyncPaging.Cursor(page, r.since, k)
    else |r.locks| <= |r.envs| && r.Answer() == Batch(now, k, frames)
  }

  lemma NothingSent(r: Request)
    requires |r.locks| <= |r.envs|
    ensures OnPage(r, 0, true, r.link, r.since, [])
  {
  }

  /** The next fetch: it finds nothing where the page ends; what it finds is sent, or ends the page. */
  lemma NextOnPage(r: Request, k: nat, now: Link, last: u32, frames: seq<seq<byte>>)
    requires k < |r.locks| <= |r.envs| && OnPage(r, k, true, now, last, frames)
    ensures
      var turn := TakeTurn(now, r.view, last, r.locks[k], r.envs[k]);
      OnPage(r, if turn.sent then k + 1 else k, turn.sent, turn.link, turn.id, frames + turn.frames)
  {
    FetchNext(r, k);
    hide Since, Take, SendOne, SendAll, SyncPaging.OneByOne, Attempts, Granted;
    if k < |r.Page()| {
      OneMoreSent(r.link, r.Page(), r.envs, k, now, frames);
    } else {
      AllSent(r.link, r.Page(), r.envs, k, now, frames);
      assert frames + [] == frames;
    }
  }

  /** The next event at the cursor is the next of the page; there is none where the page ends. */
  lemma FetchNext(r: Request, k: nat)
    requires k < |r.locks| && k <= |r.Page()|
    ensures
      var page := r.Page();
      var next := if r.locks[k] then Take(Since(r.view, SyncPaging.Cursor(page, r.since, k)), 1) else [];
      next == if k == |page| then [] else [page[k]]
  {
    if k < Granted(r.locks) {
      SyncPaging.OneByOneAt(r.view, r.since, Granted(r.locks), k);
    }
  }

  lemma PageDone(r: Request, k: nat, more: bool, now: Link, last: u32, frames: seq<seq<byte>>)
    requires |r.locks| <= |r.envs| && OnPage(r, k, more, now, last, frames) && (more ==> k == |r.locks|)
    ensures r.Answer() == Batch(now, k, frames)
  {
    if more {
      AllSent(r.link, r.Page(), r.envs, k, now, frames);
    }
  }

  /** One more event: a success carries on, a failure ends the batch for good. */
  lemma SendAllStep(link: Link, events: seq<Event>, k: nat, envs: seq<Env>)
    requires k <= |events| <= |envs| && SendAll(link, events[..k], envs).sent == k
    ensures
      var r := SendAll(link, events[..k], envs);
      k < |events| ==>
        var one := SendOne(r.link, events[k], envs[k]);
        var next := Batch(one.link, if one.sent then k + 1 else k, r.frames + Attempts(one.onAir));
        SendAll(link, if one.sent then events[..k + 1] else events, envs) == next
  {
    hide SendOne;
    if k < |events| {
      assert events[..k + 1][..k] == events[..k];
      if !SendOne(SendAll(link, events[..k], envs).link, events[k], envs[k]).sent {
        SendAllStops(link, events, k + 1, envs);
      }
    }
  }

  lemma {:induction false} SendAllStops(link: Link, events: seq<Event>, k: nat, envs: seq<Env>)
    requires k <= |events| <= |envs| && SendAll(link, events[..k], envs).sent < k
    ensures SendAll(link, events, envs) == SendAll(link, events[..k], envs)
  {
    hide SendOne;
    if k == |events| {
      assert events[..k] == events;
    } else {
      var n := |events| - 1;
      assert events[..n][..k] == events[..k];
      SendAllStops(link, events[..n], k, envs);
    }
  }

  function SeqAt(s: u16, k: nat): u16 {
    (s + k) % U16_COUNT
  }

  lemma SeqStep(s: u16, k: nat)
    ensures NextSeq(SeqAt(s, k)) == SeqAt(s, k + 1) && SeqAt(s, 0) == s
  {
  }

  /** The peer decodes the k-th frame of a batch to the k-th event, under consecutive numbers. */
  lemma {:induction false} BatchDecodes(link: Link, events: seq<Event>, envs: seq<Env>, k: nat)
    requires |events| <= |envs| && k < SendAll(link, events, envs).sent
    ensures
      var r := SendAll(link, events, envs);
      && r.sent <= |r.frames| <= r.sent + 1
      && Frame.Decode(r.frames[k])
          == Frame.Accepted(Frame.Message(0x10, SeqAt(link.txSeqNum, k), Serialize(events[k])))
  {
    var n := |events| - 1;
    BatchShape(link, events[..n], envs);
    BatchShape(link, events, envs);
    BatchStep(link, events, envs);
    hide SendOne, SendAll, Frame.Encode, Frame.Decode, Serialize, NextSeq, SeqAt;
    var before := SendAll(link, events[..n], envs);
    if k < before.sent {
      BatchDecodes(link, events[..n], envs, k);
      assert events[..n][k] == events[k];
    } else {
      assert k == n == before.sent;
      Frame.DecodeEncode(Frame.Message(MSG_DETECTION_EVENT, before.link.txSeqNum, Serialize(events[n])));
    }
  }

  /** The last event of a batch: its frame comes last if everything before it went out. */
  lemma BatchStep(link: Link, events: seq<Event>, envs: seq<Env>)
    requires 0 < |events| <= |envs|
    ensures
      var n := |events| - 1;
      var r, v := SendAll(link, events[..n], envs), SendAll(link, events, envs);
      && r.frames <= v.frames
      && r.sent <= v.sent <= n + 1
      && (v.sent > r.sent ==>
            var last := Frame.Message(MSG_DETECTION_EVENT, r.link.txSeqNum, Serialize(events[n]));
            r.sent == n && v.frames == r.frames + [Frame.Encode(last)])
  {
    var n := |events| - 1;
    SendOneFacts(SendAll(link, events[..n], envs).link, events[n], envs[n]);
    hide SendOne, Frame.Encode, Serialize;
  }

  lemma SendOneFacts(link: Link, e: Event, env: Env)
    ensures
      var one := SendOne(link, e, env);
      one.sent ==>
        && one.onAir == Some(Frame.Encode(Frame.Message(MSG_DETECTION_EVENT, link.txSeqNum, Serialize(e))))
        && one.link.txSeqNum == NextSeq(link.txSeqNum)
  {
    hide Frame.Encode, Serialize;
  }

  lemma {:induction false} BatchShape(link: Link, events: seq<Event>, envs: seq<Env>)
    requires |events| <= |envs|
    ensures
      var r := SendAll(link, events, envs);
      && r.sent <= |r.frames| <= r.sent + 1
      && (r.sent == |events| ==> |r.frames| == r.sent && r.link.txSeqNum == SeqAt(link.txSeqNum, r.sent))
  {
    if events != [] {
      var n := |events| - 1;
      BatchShape(link, events[..n], envs);
      SendOneFacts(SendAll(link, events[..n], envs).link, events[n], envs[n]);
      hide SendOne, Frame.Encode, Serialize, NextSeq, SeqAt;
      SeqStep(link.txSeqNum, n);
    } else {
      SeqStep(link.txSeqNum, 0);
    }
  }
}
