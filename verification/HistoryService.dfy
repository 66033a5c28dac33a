/** The event ring in RTC memory: head and tail walk a fixed buffer, one slot always stays free.
    Every method is specified by what it does to the stored events in order (module History). */
module HistoryServices {
  import opened Bytes
  import opened Events
  import opened History
  import Crc32

  // ---------- positions in the ring

  /** The slot i steps after tail in a ring of n slots. */
  function Slot(tail: nat, i: nat, n: nat): (s: nat)
    requires tail < n && i <= n
    ensures s < n
  {
    if tail + i < n then tail + i else tail + i - n
  }

  function RingCount(head: nat, tail: nat, n: nat): (c: nat)
    requires head < n && tail < n
    ensures c < n
  {
    if head >= tail then head - tail else n - tail + head
  }

  function RingView(buffer: seq<Event>, head: nat, tail: nat): (v: seq<Event>)
    requires head < |buffer| && tail < |buffer|
    ensures |v| == RingCount(head, tail, |buffer|)
  {
    if tail <= head then buffer[tail..head] else buffer[tail..] + buffer[..head]
  }

  lemma RingViewAt(buffer: seq<Event>, head: nat, tail: nat, i: nat)
    requires head < |buffer| && tail < |buffer| && i < RingCount(head, tail, |buffer|)
    ensures RingView(buffer, head, tail)[i] == buffer[Slot(tail, i, |buffer|)]
  {
  }

  lemma SlotStep(tail: nat, i: nat, n: nat)
    requires tail < n && i < n
    ensures (Slot(tail, i, n) + 1) % n == Slot(tail, i + 1, n)
  {
    if Slot(tail, i, n) + 1 == n {
      assert n % n == 0;
    }
  }

  lemma SlotIsHead(head: nat, tail: nat, i: nat, n: nat)
    requires head < n && tail < n && i <= RingCount(head, tail, n)
    ensures Slot(tail, i, n) == head <==> i == RingCount(head, tail, n)
  {
  }

  /** One step of a walk from tail to head. */
  lemma Walk(buffer: seq<Event>, head: nat, tail: nat, i: nat)
    requires head < |buffer| && tail < |buffer| && i <= RingCount(head, tail, |buffer|)
    ensures
      var v, n, current := RingView(buffer, head, tail), |buffer|, Slot(tail, i, |buffer|);
      if current == head then i == |v| && v[..i] == v
      else
        && i < |v| && v[i] == buffer[current] && (current + 1) % n == Slot(tail, i + 1, n)
        && v[..i + 1] == v[..i] + [buffer[current]]
  {
    SlotIsHead(head, tail, i, |buffer|);
    if i < RingCount(head, tail, |buffer|) {
      RingViewAt(buffer, head, tail, i);
      SlotStep(tail, i, |buffer|);
    }
  }

  lemma SelectSnoc(v: seq<Event>, e: Event, p: Event -> bool)
    ensures Select(v + [e], p) == if p(e) then Select(v, p) + [e] else Select(v, p)
  {
    assert (v + [e])[..|v|] == v;
  }

  /** Overwriting the i-th stored event changes only that position of the view. */
  lemma RingViewUpdate(buffer: seq<Event>, head: nat, tail: nat, i: nat, e: Event)
    requires head < |buffer| && tail < |buffer| && i < RingCount(head, tail, |buffer|)
    ensures RingView(buffer[Slot(tail, i, |buffer|) := e], head, tail) == RingView(buffer, head, tail)[i := e]
  {
  }

  /** now is v with its first i events stamped. */
  ghost predicate StampedTo(v: seq<Event>, i: nat, bootCount: u32, epoch: u32, uptime: u32, now: seq<Event>) {
    i <= |v| && now == BackfillAll(v[..i], bootCount, epoch, uptime) + v[i..]
  }

  lemma StampedStart(v: seq<Event>, bootCount: u32, epoch: u32, uptime: u32)
    ensures StampedTo(v, 0, bootCount, epoch, uptime, v)
  {
  }

  lemma StampedStep(v: seq<Event>, i: nat, bootCount: u32, epoch: u32, uptime: u32, now: seq<Event>)
    requires StampedTo(v, i, bootCount, epoch, uptime, now)
    ensures |now| == |v|
    ensures i < |v| ==> now[i] == v[i]
    ensures i < |v| ==>
              StampedTo(v, i + 1, bootCount, epoch, uptime, now[i := Backfill(v[i], bootCount, epoch, uptime)])
  {
  }

  lemma StampedEnd(v: seq<Event>, bootCount: u32, epoch: u32, uptime: u32, now: seq<Event>)
    requires StampedTo(v, |v|, bootCount, epoch, uptime, now)
    ensures now == BackfillAll(v, bootCount, epoch, uptime)
  {
    assert v[..|v|] == v;
  }

  // ---------- the checksum over the whole buffer

  function RingBytes(buffer: seq<Event>): (s: seq<byte>)
    ensures |s| == EVENT_SIZE * |buffer|
  {
    if buffer == [] then [] else RingBytes(buffer[..|buffer| - 1]) + Serialize(buffer[|buffer| - 1])
  }

  function RingChecksum(buffer: seq<Event>): bv32 {
    Crc32.Checksum(RingBytes(buffer))
  }

  /** RTC memory as the warm-boot check reads it: raw bytes, and the rest of the state beside them. */
  datatype RtcState = RtcState(magicNumber: u32, crc32: bv32, bootCount: u32, head: nat, tail: nat, globalEventId: u32,
                               bytes: seq<byte>)

  predicate PassesCheck(r: RtcState, magic: u32) {
    r.magicNumber == magic && r.crc32 == Crc32.Checksum(r.bytes)
  }

  /** Number of events between two indices, as 16-bit arithmetic has it even for impossible ones. */
  function EventCount(head: nat, tail: nat, n: nat): u16 {
    (if head >= tail then head - tail else n - tail + head) % U16_COUNT
  }

  /** What the backup's keys say: the raw buffer with its indices and counters. */
  datatype NvsImage = NvsImage(bootCount: u32, eventId: u32, head: nat, tail: nat, events: seq<Event>) {

    ghost predicate Fits(n: nat) {
      |events| == n && head < n && tail < n
    }

    ghost function Holds(): History
      requires Fits(|events|)
    {
      History(RingView(events, head, tail), eventId, bootCount)
    }
  }

  /** How the writes of one flush go: the count each one returns, and whether each attempt at the event
      blob wrote all of it. */
  datatype NvsWrites = NvsWrites(opens: bool, bootCount: nat, eventId: nat, head: nat, tail: nat, blob: seq<bool>) {

    predicate BlobWritten() {
      exists k :: 0 <= k < |blob| && k < 3 && blob[k]
    }

    predicate AllWritten() {
      bootCount > 0 && eventId > 0 && head > 0 && tail > 0 && BlobWritten()
    }

    /** The firmware and-s the returned counts into one flag, so only their lowest bits matter. */
    predicate CountsOdd() {
      bootCount % 2 == 1 && eventId % 2 == 1 && head % 2 == 1 && tail % 2 == 1
    }
  }

  /** The backup in flash, key by key. */
  class Nvs {
    var bootCount: Option<u32>
    var eventId: Option<u32>
    var head: Option<nat>
    var tail: Option<nat>
    var events: Option<seq<Event>>

    /** What a read finds; leftOver is what the read buffer holds if the blob is not there in full. */
    function Read(n: nat, leftOver: seq<Event>): Option<NvsImage>
      reads this
    {
      if eventId.None? then None
      else Some(NvsImage(Or(bootCount, 0), eventId.value, Or(head, 0), Or(tail, 0),
                         if events.Some? && |events.value| == n then events.value else leftOver))
    }
  }

  function Or<T>(x: Option<T>, default: T): T {
    if x.Some? then x.value else default
  }

  class HistoryService {
    const buffer: array<Event>
    const magic: u32
    var magicNumber: u32
    var crc32: bv32
    var bootCount: u32
    var head: nat
    var tail: nat
    var globalEventId: u32
    var timeSyncReceivedThisBoot: bool

    ghost predicate Bounds()
      reads this
    {
      head < buffer.Length && tail < buffer.Length
    }

    /** The warm-boot check would pass. */
    ghost predicate Sealed()
      reads this, buffer
    {
      magicNumber == magic && crc32 == RingChecksum(buffer[..])
    }

    ghost function Rtc(): RtcState
      reads this, buffer
    {
      RtcState(magicNumber, crc32, bootCount, head, tail, globalEventId, RingBytes(buffer[..]))
    }

    ghost predicate Valid()
      reads this, buffer
    {
      Bounds() && Sealed()
    }

    ghost function View(): seq<Event>
      reads this, buffer
      requires Bounds()
    {
      RingView(buffer[..], head, tail)
    }

    ghost function Contents(): History
      reads this, buffer
      requires Bounds()
    {
      History(View(), globalEventId, bootCount)
    }

    ghost function Capacity(): nat
      requires buffer.Length > 0
    {
      buffer.Length - 1
    }

    method UpdateCRC()
      modifies this`crc32
      ensures crc32 == RingChecksum(buffer[..])
    {
      crc32 := RingChecksum(buffer[..]);
    }

    method ValidateState() returns (ok: bool)
      ensures ok <==> Sealed()
      ensures ok <==> PassesCheck(Rtc(), magic)
    {
      if magicNumber != magic {
        return false;
      }
      var calculatedCRC := RingChecksum(buffer[..]);
      return calculatedCRC == crc32;
    }

    method GetEventCount() returns (n: u16)
      ensures n == EventCount(head, tail, buffer.Length)
      ensures Bounds() && buffer.Length <= U16_COUNT ==> n == |View()|
    {
      if head >= tail {
        n := (head - tail) % U16_COUNT;
      } else {
        n := (buffer.Length - tail + head) % U16_COUNT;
      }
    }

    method LogDetection(durationMs: u16, uptime: u32, currentEpoch: u32, locked: bool) returns (eventId: u32)
      requires Valid()
      modifies this, buffer
      ensures Valid()
      ensures Contents() == if locked then Log(old(Contents()), Capacity(), durationMs, uptime, currentEpoch)
          else old(Contents())
      ensures eventId == if locked then globalEventId else 0
      ensures locked && buffer.Length > 1 ==>
                && View() != []
                && var e := View()[|View()| - 1];
                && e.id == eventId && e.timestampMs == uptime && e.durationMs == durationMs
                && e.bootCount == old(bootCount)
                && e.timestamp == (if currentEpoch >= 1577836800 then currentEpoch else 0)
                && !e.IsSynced() && (e.WasOverflow() <==> |old(View())| == buffer.Length - 1)
      ensures timeSyncReceivedThisBoot == old(timeSyncReceivedThisBoot)
    {
      if !locked {
        return 0;
      }
      LastIs(Contents(), Capacity(), durationMs, uptime, currentEpoch);
      hide Log, RingView, RingChecksum, RingCount;
      eventId := Append(durationMs, uptime, currentEpoch);
    }

    lemma LastIs(h: History, capacity: nat, durationMs: u16, uptime: u32, epoch: u32)
      requires |h.events| <= capacity
      ensures
        var g := Log(h, capacity, durationMs, uptime, epoch);
        capacity > 0 ==>
          && g.events != []
          && var e := g.events[|g.events| - 1];
          && e.id == g.latestId && e.timestampMs == uptime && e.durationMs == durationMs && e.bootCount == h.bootCount
          && e.timestamp == (if epoch >= 1577836800 then epoch else 0)
          && !e.IsSynced() && (e.WasOverflow() <==> |h.events| == capacity)
    {
    }

    /** What logging does under the lock. */
    method Append(durationMs: u16, uptime: u32, currentEpoch: u32) returns (eventId: u32)
      requires Valid()
      modifies this`head, this`tail, this`globalEventId, this`crc32, buffer
      ensures Valid() && Contents() == Log(old(Contents()), Capacity(), durationMs, uptime, currentEpoch)
      ensures eventId == globalEventId
    {
      hide RingView, RingCount, RingChecksum, Slot;
      ghost var was, h := buffer[..], Contents();
      var overflow := false;
      var nextHead := (head + 1) % buffer.Length;
      LogView(was, head, tail, NewEvent(h, Capacity(), durationMs, uptime, currentEpoch));
      if nextHead == tail {
        tail := (tail + 1) % buffer.Length;
        overflow := true;
      }
      globalEventId := (globalEventId + 1) % U32_COUNT;
      var event := Event(globalEventId, uptime, bootCount, durationMs, 0, buffer[head].flags);
      if currentEpoch >= MIN_VALID_EPOCH {
        event := event.(timestamp := currentEpoch);
        if !timeSyncReceivedThisBoot {
          event := event.SetTimeEstimated();
        }
      }
      event := event.ClearFlags();
      if overflow {
        event := event.SetOverflow();
      }
      assert event == NewEvent(h, Capacity(), durationMs, uptime, currentEpoch);
      buffer[head] := event;
      assert buffer[..] == was[head := event];
      head := nextHead;
      UpdateCRC();
      eventId := event.id;
    }

    method GetNextUnsynced(locked: bool) returns (found: bool, outEvent: Event)
      requires Valid()
      ensures found <==> locked && NextUnsynced(View()).Some?
      ensures found ==> NextUnsynced(View()) == Some(outEvent)
    {
      hide RingView, Slot, RingCount, RingChecksum, Select;
      ghost var v, i := View(), 0;
      ghost var p := (e: Event) => !e.IsSynced();
      var current := tail;
      outEvent := buffer[tail];
      if !locked {
        return false, outEvent;
      }
      Start(v, p);
      while current != head
        invariant i <= |v| && current == Slot(tail, i, buffer.Length)
        invariant Select(v[..i], p) == []
        decreases |v| - i
      {
        Walk(buffer[..], head, tail, i);
        SelectSnoc(v[..i], buffer[current], p);
        if !buffer[current].IsSynced() {
          SelectPrefix(v, p, i + 1);
          return true, buffer[current];
        }
        current := (current + 1) % buffer.Length;
        i := i + 1;
      }
      Walk(buffer[..], head, tail, i);
      found := false;
    }

    lemma Start(v: seq<Event>, p: Event -> bool)
      requires buffer.Length > 0
      ensures Select(v[..0], p) == []
      ensures forall t :: 0 <= t < buffer.Length ==> Slot(t, 0, buffer.Length) == t
    {
    }

    method GetUnsyncedEvents(maxCount: byte, locked: bool) returns (outEvents: seq<Event>)
      requires Valid()
      ensures outEvents == if locked then Take(Select(View(), (e: Event) => !e.IsSynced()), maxCount) else []
    {
      hide RingView, Slot, RingCount, RingChecksum, Select;
      ghost var v, i := View(), 0;
      ghost var p := (e: Event) => !e.IsSynced();
      var current := tail;
      outEvents := [];
      if !locked {
        return;
      }
      Start(v, p);
      while current != head && |outEvents| < maxCount
        invariant i <= |v| && current == Slot(tail, i, buffer.Length)
        invariant outEvents == Select(v[..i], p) && |outEvents| <= maxCount
        decreases |v| - i
      {
        Walk(buffer[..], head, tail, i);
        SelectSnoc(v[..i], buffer[current], p);
        if !buffer[current].IsSynced() {
          outEvents := outEvents + [buffer[current]];
        }
        current := (current + 1) % buffer.Length;
        i := i + 1;
      }
      Walk(buffer[..], head, tail, i);
      SelectPrefix(v, p, i);
    }

    method GetEventsSince(sinceId: u32, maxCount: byte, locked: bool) returns (outEvents: seq<Event>)
      requires Valid()
      ensures outEvents == if locked then Take(Since(View(), sinceId), maxCount) else []
    {
      hide RingView, Slot, RingCount, RingChecksum, Select;
      ghost var v, i := View(), 0;
      ghost var p := (e: Event) => e.id > sinceId;
      var current := tail;
      outEvents := [];
      if !locked {
        return;
      }
      Start(v, p);
      while current != head && |outEvents| < maxCount
        invariant i <= |v| && current == Slot(tail, i, buffer.Length)
        invariant outEvents == Select(v[..i], p) && |outEvents| <= maxCount
        decreases |v| - i
      {
        Walk(buffer[..], head, tail, i);
        SelectSnoc(v[..i], buffer[current], p);
        if buffer[current].id > sinceId {
          outEvents := outEvents + [buffer[current]];
        }
        current := (current + 1) % buffer.Length;
        i := i + 1;
      }
      Walk(buffer[..], head, tail, i);
      SelectPrefix(v, p, i);
    }

    /** The walk shared by single and multiple marking. */
    method FindInRing(eventId: u32) returns (found: bool, current: nat)
      requires Bounds()
      ensures found <==> FirstWithId(View(), eventId) < |View()|
      ensures found ==> current == Slot(tail, FirstWithId(View(), eventId), buffer.Length)
    {
      hide RingView, Slot, RingCount, FirstWithId;
      ghost var v, i := View(), 0;
      current := tail;
      Start(v, (e: Event) => true);
      while current != head
        invariant i <= |v| && current == Slot(tail, i, buffer.Length)
        invariant forall k :: 0 <= k < i ==> v[k].id != eventId
        decreases |v| - i
      {
        Walk(buffer[..], head, tail, i);
        if buffer[current].id == eventId {
          assert FirstWithId(v, eventId) == i;
          return true, current;
        }
        current := (current + 1) % buffer.Length;
        i := i + 1;
      }
      Walk(buffer[..], head, tail, i);
      assert FirstWithId(v, eventId) == |v|;
      found := false;
    }

    method MarkAsSynced(eventId: u32, locked: bool) returns (found: bool)
      requires Valid()
      modifies this`crc32, buffer
      ensures Valid()
      ensures Contents() == if locked then MarkSynced(old(Contents()), eventId) else old(Contents())
      ensures found <==> locked && FirstWithId(old(View()), eventId) < |old(View())|
    {
      hide RingView, Slot, RingCount, RingChecksum, FirstWithId;
      if !locked {
        return false;
      }
      ghost var was := buffer[..];
      var current;
      found, current := FindInRing(eventId);
      if found {
        RingViewUpdate(was, head, tail, FirstWithId(View(), eventId), buffer[current].SetSynced());
        Walk(was, head, tail, FirstWithId(View(), eventId));
        buffer[current] := buffer[current].SetSynced();
        assert buffer[..] == was[current := was[current].SetSynced()];
        UpdateCRC();
      }
    }

    method MarkMultipleAsSynced(eventIds: seq<u32>, locked: bool) returns (markedCount: nat)
      requires Valid()
      modifies this`crc32, buffer
      ensures Valid()
      ensures Contents() == if locked then old(Contents()).(events := MarkAll(old(View()), eventIds))
          else old(Contents())
      ensures markedCount == CountUnsynced(old(View())) - CountUnsynced(View())
    {
      hide RingView, Slot, RingCount, RingChecksum, FirstWithId, CountUnsynced;
      markedCount := 0;
      if !locked {
        return;
      }
      for i := 0 to |eventIds|
        invariant Bounds() && magicNumber == magic
        invariant View() == MarkAll(old(View()), eventIds[..i])
        invariant markedCount == CountUnsynced(old(View())) - CountUnsynced(View())
        invariant crc32 == old(crc32) && (markedCount == 0 ==> buffer[..] == old(buffer[..]))
      {
        ghost var was, v := buffer[..], View();
        var found, current := FindInRing(eventIds[i]);
        if found {
          ghost var k := FirstWithId(v, eventIds[i]);
          RingViewUpdate(was, head, tail, k, buffer[current].SetSynced());
          Walk(was, head, tail, k);
          CountUpdate(v, k);
          if !buffer[current].IsSynced() {
            buffer[current] := buffer[current].SetSynced();
            assert buffer[..] == was[current := was[current].SetSynced()];
            markedCount := markedCount + 1;
          } else {
            assert v[k := v[k].SetSynced()] == v;
          }
        }
        assert eventIds[..i + 1][..i] == eventIds[..i];
      }
      assert eventIds[..|eventIds|] == eventIds;
      if markedCount > 0 {
        UpdateCRC();
      }
    }

    /** Gives every stored event of this boot that has no timestamp one, relative to the phone's. */
    method ApplyTimeSync(currentEpoch: u32, currentUptime: u32, locked: bool)
      requires Valid()
      modifies this`crc32, this`timeSyncReceivedThisBoot, buffer
      ensures Valid() && timeSyncReceivedThisBoot
      ensures Contents() == if locked then TimeSync(old(Contents()), currentEpoch, currentUptime)
          else old(Contents())
    {
      hide RingView, RingCount, RingChecksum, BackfillAll;
      timeSyncReceivedThisBoot := true;
      if !locked {
        return;
      }
      StampAll(currentEpoch, currentUptime);
    }

    /** The first i of the events v are stamped; if none needed it, the buffer is still the one sealed. */
    ghost predicate Stamping(v: seq<Event>, i: nat, epoch: u32, uptime: u32, sealed: seq<Event>, count: nat)
      reads this, buffer
    {
      && Bounds() && magicNumber == magic && crc32 == RingChecksum(sealed)
      && StampedTo(v, i, bootCount, epoch, uptime, View())
      && (count == 0 ==> buffer[..] == sealed)
    }

    /** What a time sync does under the lock. */
    method StampAll(currentEpoch: u32, currentUptime: u32)
      requires Valid()
      modifies this`crc32, buffer
      ensures Valid() && Contents() == TimeSync(old(Contents()), currentEpoch, currentUptime)
    {
      hide RingView, RingCount, RingChecksum, StampedTo, BackfillAll;
      ghost var v, sealed, i := View(), buffer[..], 0;
      var current, updatedCount := tail, 0;
      StampedStart(v, bootCount, currentEpoch, currentUptime);
      while current != head
        invariant i <= |v| && Bounds() && current == Slot(tail, i, buffer.Length)
        invariant Stamping(v, i, currentEpoch, currentUptime, sealed, updatedCount)
        decreases |v| - i
      {
        hide Slot, Stamping;
        updatedCount := StampTurn(v, i, current, currentEpoch, currentUptime, sealed, updatedCount);
        current := (current + 1) % buffer.Length;
        i := i + 1;
      }
      Walk(buffer[..], head, tail, i);
      StampedEnd(v, bootCount, currentEpoch, currentUptime, View());
      if updatedCount > 0 {
        UpdateCRC();
      }
    }

    /** Stamps the i-th event if it needs it. */
    method StampTurn(ghost v: seq<Event>, ghost i: nat, current: nat, currentEpoch: u32, currentUptime: u32,
        ghost sealed: seq<Event>, count: nat) returns (updatedCount: nat)
      requires i <= |v| && Stamping(v, i, currentEpoch, currentUptime, sealed, count)
      requires current == Slot(tail, i, buffer.Length) != head
      modifies buffer
      ensures i < |v| && Stamping(v, i + 1, currentEpoch, currentUptime, sealed, updatedCount)
      ensures (current + 1) % buffer.Length == Slot(tail, i + 1, buffer.Length)
    {
      StampedStep(v, i, bootCount, currentEpoch, currentUptime, View());
      hide RingView, RingCount, RingChecksum, StampedTo, Backfill, Slot;
      Walk(buffer[..], head, tail, i);
      RingViewUpdate(buffer[..], head, tail, i, Backfill(v[i], bootCount, currentEpoch, currentUptime));
      var updated := StampAt(current, currentEpoch, currentUptime);
      updatedCount := count + if updated then 1 else 0;
    }

    /** Stamps one event if it needs it. */
    method StampAt(current: nat, currentEpoch: u32, currentUptime: u32) returns (updated: bool)
      requires current < buffer.Length
      modifies buffer
      ensures
        var was := old(buffer[..]);
        && buffer[..] == was[current := Backfill(was[current], bootCount, currentEpoch, currentUptime)]
        && (!updated ==> buffer[..] == was)
    {
      hide Stamp;
      var evt := buffer[current];
      updated := false;
      if evt.bootCount == bootCount {
        if evt.timestamp == 0 {
          var bootEpoch := 0;
          var uptimeSec := currentUptime / 1000;
          if currentEpoch >= uptimeSec {
            bootEpoch := currentEpoch - uptimeSec;
          }
          StampIs(currentEpoch, currentUptime, evt.timestampMs);
          evt := evt.(timestamp := (bootEpoch + evt.timestampMs / 1000) % U32_COUNT);
          buffer[current] := evt;
          updated := true;
        }
      }
    }

    lemma StampIs(epoch: u32, uptime: u32, eventMs: u32)
      ensures Stamp(epoch, uptime, eventMs)
           == ((if epoch >= uptime / 1000 then epoch - uptime / 1000 else 0) + eventMs / 1000) % U32_COUNT
    {
    }

    method FastForwardEventId(newId: u32, locked: bool) returns (didUpdate: bool)
      requires Valid()
      modifies this`globalEventId, this`crc32
      ensures Valid()
      ensures Contents() == if locked then FastForward(old(Contents()), newId) else old(Contents())
      ensures didUpdate <==> locked && newId > old(globalEventId)
    {
      didUpdate := false;
      if !locked {
        return;
      }
      if newId > globalEventId {
        globalEventId := newId;
        UpdateCRC();
        didUpdate := true;
      }
    }

    // ---------- backup and boot

    /** Copies the state and writes it out key by key, unless power or pairing forbid it or the lock is
        missed. A key whose write fails keeps what it had; the blob is tried three times. */
    method FlushToNvs(nvs: Nvs, batteryCritical: bool, pairing: bool, locked: bool, w: NvsWrites) returns (ok: bool)
      requires |w.blob| == 3
      modifies nvs
      ensures
        var writes := !batteryCritical && !pairing && locked && w.opens;
        && (ok <==>
              && writes && (w.blob[0] || w.blob[1] || w.blob[2])
              && w.bootCount % 2 == 1 && w.eventId % 2 == 1 && w.head % 2 == 1 && w.tail % 2 == 1)
        && nvs.bootCount == (if writes && w.bootCount > 0 then Some(bootCount) else old(nvs.bootCount))
        && nvs.eventId == (if writes && w.eventId > 0 then Some(globalEventId) else old(nvs.eventId))
        && nvs.head == (if writes && w.head > 0 then Some(head) else old(nvs.head))
        && nvs.tail == (if writes && w.tail > 0 then Some(tail) else old(nvs.tail))
        && nvs.events == (if writes && w.BlobWritten() then Some(buffer[..]) else old(nvs.events))
      ensures !batteryCritical && !pairing && locked && w.opens && w.AllWritten() && Bounds() ==>
                forall leftOver: seq<Event> ::
                  var image := nvs.Read(buffer.Length, leftOver);
                  image.Some? && image.value.Fits(buffer.Length) && image.value.Holds() == Contents()
    {
      if batteryCritical {
        return false;
      }
      if pairing {
        return false;
      }
      if !locked {
        return false;
      }
      var localBuffer := buffer[..];
      if !w.opens {
        return false;
      }
      if w.bootCount > 0 {
        nvs.bootCount := Some(bootCount);
      }
      if w.eventId > 0 {
        nvs.eventId := Some(globalEventId);
      }
      if w.head > 0 {
        nvs.head := Some(head);
      }
      if w.tail > 0 {
        nvs.tail := Some(tail);
      }
      var success := w.bootCount % 2 == 1 && w.eventId % 2 == 1 && w.head % 2 == 1 && w.tail % 2 == 1;
      var written := false;
      for attempt := 0 to 3
        invariant !written && forall k :: 0 <= k < attempt ==> !w.blob[k]
      {
        if w.blob[attempt] {
          nvs.events := Some(localBuffer);
          written := true;
          break;
        }
      }
      if !written {
        return false;
      }
      return success;
    }

    method RestoreFromNvs(nvs: Nvs, leftOver: seq<Event>) returns (restored: byte)
      requires |leftOver| == buffer.Length
      modifies this`magicNumber, this`crc32, this`bootCount, this`head, this`tail, this`globalEventId, buffer
      ensures
        var image := nvs.Read(buffer.Length, leftOver);
        if image.None? then
          restored == 0 && Rtc() == old(Rtc()) && buffer[..] == old(buffer[..])
        else
          && Sealed() && buffer[..] == image.value.events
          && Rtc() == RtcState(magic, crc32, image.value.bootCount, image.value.head, image.value.tail,
                               image.value.eventId, RingBytes(image.value.events))
          && restored == EventCount(head, tail, buffer.Length) % 0x100
      ensures nvs.eventId.None? ==>
                restored == 0 && buffer[..] == old(buffer[..]) && globalEventId == old(globalEventId)
      ensures nvs.eventId.Some? ==> globalEventId == nvs.eventId.value
    {
      hide RingBytes, RingChecksum, Crc32.Checksum, RingView, RingCount;
      if nvs.eventId.None? {
        return 0;
      }
      var nvsBuffer := if nvs.events.Some? && |nvs.events.value| == buffer.Length then nvs.events.value else leftOver;
      TakeOver(NvsImage(Or(nvs.bootCount, 0), nvs.eventId.value, Or(nvs.head, 0), Or(nvs.tail, 0), nvsBuffer));
      var eventCount := GetEventCount();
      restored := eventCount % 0x100;
    }

    /** Makes RTC memory what was read. */
    method TakeOver(image: NvsImage)
      requires |image.events| == buffer.Length
      modifies this`magicNumber, this`crc32, this`bootCount, this`head, this`tail, this`globalEventId, buffer
      ensures Sealed() && buffer[..] == image.events && bootCount == image.bootCount && globalEventId == image.eventId
      ensures head == image.head && tail == image.tail
    {
      hide RingChecksum;
      bootCount, globalEventId, head, tail := image.bootCount, image.eventId, image.head, image.tail;
      forall i | 0 <= i < buffer.Length {
        buffer[i] := image.events[i];
      }
      assert buffer[..] == image.events;
      magicNumber := magic;
      UpdateCRC();
    }

    method ResetState()
      requires buffer.Length > 0
      modifies this`magicNumber, this`crc32, this`bootCount, this`head, this`tail, this`globalEventId, buffer
      ensures Valid() && Contents() == History([], 0, 0)
      ensures forall i :: 0 <= i < buffer.Length ==> buffer[i] == Event(0, 0, 0, 0, 0, 0)
    {
      forall i | 0 <= i < buffer.Length {
        buffer[i] := Event(0, 0, 0, 0, 0, 0);
      }
      magicNumber, bootCount, head, tail, globalEventId := magic, 0, 0, 0, 0;
      UpdateCRC();
    }

    /** Boot: RTC memory that the reset kept and whose check passes is kept as it is, whatever its indices;
        otherwise the backup starts a new boot, or, if its indices count no events, nothing does. */
    method Init(powerLost: bool, nvs: Nvs, leftOver: seq<Event>)
      requires buffer.Length > 0 && |leftOver| == buffer.Length
      modifies this, buffer
      ensures Sealed() && !timeSyncReceivedThisBoot
      ensures
        var image := nvs.Read(buffer.Length, leftOver);
        if !powerLost && old(Sealed()) then
          Rtc() == old(Rtc()) && buffer[..] == old(buffer[..])
        else if image.Some? && EventCount(image.value.head, image.value.tail, buffer.Length) % 0x100 != 0 then
          && buffer[..] == image.value.events
          && Rtc() == RtcState(magic, crc32, (image.value.bootCount + 1) % U32_COUNT, image.value.head,
                               image.value.tail, image.value.eventId, RingBytes(image.value.events))
        else
          && Bounds() && Contents() == History([], 0, 1)
          && forall i :: 0 <= i < buffer.Length ==> buffer[i] == Event(0, 0, 0, 0, 0, 0)
    {
      hide RingBytes, Crc32.Checksum, EventCount, RingView, RingCount;
      timeSyncReceivedThisBoot := false;
      var isColdBoot := powerLost || magicNumber != magic;
      if !isColdBoot {
        var sound := ValidateState();
        if sound {
          UpdateCRC();
          return;
        }
      }
      var restoredCount := RestoreFromNvs(nvs, leftOver);
      if restoredCount > 0 {
        bootCount := (bootCount + 1) % U32_COUNT;
      } else {
        ResetState();
        bootCount := 1;
      }
      UpdateCRC();
    }
  }

  /** With a backup whose indices are in range, that is the cold boot of module History. */
  lemma ColdBootOfBackup(image: NvsImage, n: nat)
    requires image.Fits(n)
    ensures
      var events := RingView(image.events, image.head, image.tail);
      ColdBoot(Some(image.Holds())) == if EventCount(image.head, image.tail, n) % 0x100 != 0
                                       then History(events, image.eventId, (image.bootCount + 1) % U32_COUNT)
                                       else History([], 0, 1)
  {
    var events := RingView(image.events, image.head, image.tail);
    CountOfView(image.head, image.tail, n);
    hide RingView, EventCount, RingCount;
    assert |events| == RingCount(image.head, image.tail, n);
  }

  lemma CountOfView(head: nat, tail: nat, n: nat)
    requires head < n && tail < n
    ensures EventCount(head, tail, n) % 0x100 == RingCount(head, tail, n) % 0x100
  {
    LowByteOfWord(RingCount(head, tail, n));
  }

  lemma LowByteOfWord(x: nat)
    ensures x % U16_COUNT % 0x100 == x % 0x100
  {
    assert x == U16_COUNT * (x / U16_COUNT) + x % U16_COUNT;
    assert x % U16_COUNT == x - 0x100 * (0x100 * (x / U16_COUNT));
  }

  /** A flush reports success exactly if every returned count is odd: byte counts of a flush that wrote
      everything report failure. */
  lemma ByteCountsReportFailure(blob: seq<bool>)
    requires |blob| == 3 && blob[0]
    ensures var w := NvsWrites(true, 4, 4, 2, 2, blob); w.AllWritten() && !w.CountsOdd()
  {
    var w := NvsWrites(true, 4, 4, 2, 2, blob);
    assert w.blob[0];
  }

  /** Writing at head and moving head on, after moving tail on if the ring was full. */
  lemma LogView(buffer: seq<Event>, head: nat, tail: nat, e: Event)
    requires head < |buffer| && tail < |buffer|
    ensures
      var n := |buffer|;
      var nextHead := (head + 1) % n;
      var nextTail := if nextHead == tail then (tail + 1) % n else tail;
      var v := RingView(buffer, head, tail);
      && (nextHead == tail <==> |v| == n - 1)
      && nextHead < n && nextTail < n
      && RingView(buffer[head := e], nextHead, nextTail) == Last(v + [e], n - 1)
  {
    var n := |buffer|;
    SlotStep(head, 0, n);
    SlotStep(tail, 0, n);
  }

  // ---------- what the check of RTC memory sees

  /** The bytes that the check covers are those of every stored event, in order. */
  lemma {:induction false} RingBytesAt(buffer: seq<Event>, i: nat)
    requires i < |buffer|
    ensures RingBytes(buffer)[24 * i..24 * i + 24] == Serialize(buffer[i])
  {
    hide Serialize;
    var n := |buffer| - 1;
    if i < n {
      RingBytesAt(buffer[..n], i);
      assert RingBytes(buffer)[24 * i..24 * i + 24] == RingBytes(buffer[..n])[24 * i..24 * i + 24];
    }
  }

  /** Damage confined to four consecutive bytes of the stored events, reserved ones included, or to the
      stored CRC alone, fails the check, and so does another magic number. */
  lemma RingDamageDetected(r: RtcState, damaged: RtcState, magic: u32, p: seq<byte>, m: seq<byte>, m': seq<byte>,
      t: seq<byte>)
    requires PassesCheck(r, magic)
    requires r.bytes == p + m + t && damaged.bytes == p + m' + t && |m| == |m'| <= 4
    requires (m != m' && damaged.crc32 == r.crc32) || (m == m' && damaged.crc32 != r.crc32)
               || damaged.magicNumber != magic
    ensures !PassesCheck(damaged, magic)
  {
    hide Crc32.Checksum;
    if m != m' {
      Crc32.ChangeDetected(p, m, m', t);
    }
  }

  /** The check sees nothing of the indices and counters. */
  lemma IndicesUnchecked(r: RtcState, magic: u32, bootCount: u32, head: nat, tail: nat, eventId: u32)
    ensures PassesCheck(r.(bootCount := bootCount, head := head, tail := tail, globalEventId := eventId), magic)
        == PassesCheck(r, magic)
  {
  }

  /** Where a walk through a ring of n slots stands after i steps. */
  function WalkAt(tail: nat, n: nat, i: nat): (current: nat)
    requires n > 0
    ensures i > 0 ==> current < n
  {
    if i == 0 then tail else (WalkAt(tail, n, i - 1) + 1) % n
  }

  lemma {:induction false} WalkReaches(tail: nat, n: nat, i: nat)
    requires tail < n && i < n
    ensures WalkAt(tail, n, i) == Slot(tail, i, n)
  {
    if i > 0 {
      WalkReaches(tail, n, i - 1);
      SlotStep(tail, i - 1, n);
    }
  }

  /** From an index inside the ring the walk meets head exactly if head is inside too: otherwise the loops
      that walk until they do never end. */
  lemma WalkEndsIff(head: nat, tail: nat, n: nat)
    requires tail < n
    ensures head < n <==> exists i: nat :: WalkAt(tail, n, i) == head
  {
    if head < n {
      SlotIsHead(head, tail, RingCount(head, tail, n), n);
      WalkReaches(tail, n, RingCount(head, tail, n));
    }
    if i: nat :| WalkAt(tail, n, i) == head {
      assert WalkAt(tail, n, i) < n;
    }
  }

  /** A ring of n events whose head points past its end passes the check, and no walk through it ends. */
  lemma OutOfRangeHeadPasses(magic: u32, n: nat, bytes: seq<byte>)
    requires n > 0 && |bytes| == EVENT_SIZE * n
    ensures
      var r := RtcState(magic, Crc32.Checksum(bytes), 1, n, 0, 7, bytes);
      PassesCheck(r, magic) && forall i: nat :: WalkAt(r.tail, n, i) != r.head
  {
    WalkEndsIff(n, 0, n);
  }
}
