/** What each history operation means, on the stored events in order from oldest to newest. */
module History {
  import opened Bytes
  import opened Events

  const MIN_VALID_EPOCH: u32 := 1577836800

  /** events is the ring from tail to head; latestId and bootCount are the persistent counters. */
  datatype History = History(events: seq<Event>, latestId: u32, bootCount: u32)

  function NextId(latestId: u32): u32 {
    (latestId + 1) % U32_COUNT
  }

  function NewEvent(h: History, capacity: nat, durationMs: u16, uptime: u32, epoch: u32): Event {
    Event(NextId(h.latestId), uptime, h.bootCount, durationMs,
          if epoch >= MIN_VALID_EPOCH then epoch else 0,
          if |h.events| >= capacity then 2 else 0)
  }

  /** Appends a new event; a full ring gives up its oldest one. */
  function Log(h: History, capacity: nat, durationMs: u16, uptime: u32, epoch: u32): History {
    History(Last(h.events + [NewEvent(h, capacity, durationMs, uptime, epoch)], capacity),
            NextId(h.latestId), h.bootCount)
  }

  /** The position of the first event with this id, or the length. */
  function FirstWithId(v: seq<Event>, id: u32): (i: nat)
    ensures i <= |v|
    ensures i < |v| ==> v[i].id == id
    ensures forall k :: 0 <= k < i ==> v[k].id != id
  {
    if v == [] then 0 else if v[0].id == id then 0 else 1 + FirstWithId(v[1..], id)
  }

  function MarkFirst(v: seq<Event>, id: u32): (r: seq<Event>)
    ensures |r| == |v|
  {
    var i := FirstWithId(v, id);
    if i < |v| then v[i := v[i].SetSynced()] else v
  }

  function MarkAll(v: seq<Event>, ids: seq<u32>): (r: seq<Event>)
    ensures |r| == |v|
  {
    if ids == [] then v else MarkFirst(MarkAll(v, ids[..|ids| - 1]), ids[|ids| - 1])
  }

  function CountUnsynced(v: seq<Event>): nat {
    |Select(v, (e: Event) => !e.IsSynced())|
  }

  function MarkSynced(h: History, id: u32): History {
    h.(events := MarkFirst(h.events, id))
  }

  function FastForward(h: History, id: u32): History {
    if id > h.latestId then h.(latestId := id) else h
  }

  function NextUnsynced(v: seq<Event>): Option<Event> {
    var s := Select(v, (e: Event) => !e.IsSynced());
    if s == [] then None else Some(s[0])
  }

  function Since(v: seq<Event>, id: u32): seq<Event> {
    Select(v, (e: Event) => e.id > id)
  }

  // ---------- backfill

  /** Seconds stamped on an event of uptime eventMs when the phone reports epoch at uptime ms. */
  function Stamp(epoch: u32, uptime: u32, eventMs: u32): u32 {
    var bootEpoch := if epoch >= uptime / 1000 then epoch - uptime / 1000 else 0;
    (bootEpoch + eventMs / 1000) % U32_COUNT
  }

  predicate NeedsStamp(e: Event, bootCount: u32) {
    e.bootCount == bootCount && e.timestamp == 0
  }

  function Backfill(e: Event, bootCount: u32, epoch: u32, uptime: u32): Event {
    if NeedsStamp(e, bootCount) then e.(timestamp := Stamp(epoch, uptime, e.timestampMs)) else e
  }

  function BackfillAll(v: seq<Event>, bootCount: u32, epoch: u32, uptime: u32): (r: seq<Event>)
    ensures |r| == |v| && forall i :: 0 <= i < |v| ==> r[i] == Backfill(v[i], bootCount, epoch, uptime)
  {
    seq(|v|, i requires 0 <= i < |v| => Backfill(v[i], bootCount, epoch, uptime))
  }

  function TimeSync(h: History, epoch: u32, uptime: u32): History {
    h.(events := BackfillAll(h.events, h.bootCount, epoch, uptime))
  }

  // ---------- power cycles

  /** What a boot that finds RTC memory lost or damaged starts from, given the last backup.
      The restored count is truncated to eight bits, and zero counts as no backup. */
  function ColdBoot(backup: Option<History>): History {
    if backup.Some? && |backup.value.events| % 0x100 != 0 then
      backup.value.(bootCount := (backup.value.bootCount + 1) % U32_COUNT)
    else
      History([], 0, 1)
  }

  // ---------- counting marks

  lemma {:induction false} CountUpdate(v: seq<Event>, i: nat)
    requires i < |v|
    ensures CountUnsynced(v[i := v[i].SetSynced()]) == CountUnsynced(v) - if v[i].IsSynced() then 0 else 1
  {
    var w, n := v[i := v[i].SetSynced()], |v| - 1;
    if i < n {
      CountUpdate(v[..n], i);
      assert w[..n] == v[..n][i := v[..n][i].SetSynced()];
    } else {
      assert w[..n] == v[..n];
    }
  }
}
