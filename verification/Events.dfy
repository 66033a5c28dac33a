/** Detection events: packed 24-byte records that the ring stores and the protocol sends. */
module Events {
  import opened Bytes
  import opened Words

  datatype Option<T> = None | Some(value: T)

  datatype Event = Event(id: u32, timestampMs: u32, bootCount: u32, durationMs: u16, timestamp: u32, flags: byte) {

    predicate IsSynced() {
      flags % 2 == 1
    }

    predicate WasOverflow() {
      flags / 2 % 2 == 1
    }

    /** Sets bit 0 of the flags. */
    function SetSynced(): Event {
      if IsSynced() then this else this.(flags := flags + 1)
    }

    /** Sets bit 1 of the flags. */
    function SetOverflow(): Event {
      if WasOverflow() then this else this.(flags := flags + 2)
    }

    predicate IsTimeEstimated() {
      flags / 4 % 2 == 1
    }

    /** Sets bit 2 of the flags. */
    function SetTimeEstimated(): Event {
      if IsTimeEstimated() then this else this.(flags := flags + 4)
    }

    function ClearFlags(): Event {
      this.(flags := 0)
    }

    /** What never changes about an event once it is logged. */
    function Core(): EventCore {
      EventCore(id, timestampMs, bootCount, durationMs, WasOverflow())
    }
  }

  datatype EventCore = EventCore(id: u32, timestampMs: u32, bootCount: u32, durationMs: u16, evicted: bool)

  const EVENT_SIZE := 24

  function Serialize(e: Event): (s: seq<byte>)
    ensures |s| == EVENT_SIZE
  {
    Le32(e.id) + Le32(e.timestampMs) + Le32(e.bootCount) + Le16(e.durationMs) + Le32(e.timestamp) + [e.flags]
    + [0, 0, 0, 0, 0]
  }

  /** The event id that the first four payload bytes spell. */
  function LeadingId(payload: seq<byte>): u32
    requires |payload| >= 4
  {
    FromLe32(payload[..4])
  }

  lemma SerializedId(e: Event)
    ensures LeadingId(Serialize(e)) == e.id
  {
    assert Serialize(e)[..4] == Le32(e.id);
    Le32RoundTrip(e.id);
  }

  /** The packed record, byte by byte. */
  lemma Layout(e: Event)
    ensures
      var s := Serialize(e);
      && |s| == 24
      && Spelled(s, 0) == e.id && Spelled(s, 4) == e.timestampMs && Spelled(s, 8) == e.bootCount
      && Pair(s, 12) == e.durationMs && Spelled(s, 14) == e.timestamp && s[18] == e.flags
      && s[19..] == [0, 0, 0, 0, 0]
  {
    WordBytes(e.id);
    WordBytes(e.timestampMs);
    WordBytes(e.bootCount);
    WordBytes(e.timestamp);
    var s := Serialize(e);
    assert s[0..4] == Le32(e.id) && s[4..8] == Le32(e.timestampMs) && s[8..12] == Le32(e.bootCount);
    assert s[14..18] == Le32(e.timestamp);
    hide Serialize, Le32;
    SpelledThere(s, 0);
    SpelledThere(s, 4);
    SpelledThere(s, 8);
    SpelledThere(s, 14);
  }

  lemma SyncKeepsCore(e: Event)
    ensures e.SetSynced().Core() == e.Core() && e.SetSynced().IsSynced()
    ensures e.SetSynced().timestamp == e.timestamp
  {
  }

  // ---------- sequences of events

  function Select(v: seq<Event>, p: Event -> bool): (r: seq<Event>)
    ensures |r| <= |v|
  {
    if v == [] then [] else
      Select(v[..|v| - 1], p) + (if p(v[|v| - 1]) then [v[|v| - 1]] else [])
  }

  function Cores(v: seq<Event>): (r: seq<EventCore>)
    ensures |r| == |v| && forall i :: 0 <= i < |v| ==> r[i] == v[i].Core()
  {
    seq(|v|, i requires 0 <= i < |v| => v[i].Core())
  }

  /** The last n elements, or all of them. */
  function Last<T>(v: seq<T>, n: nat): (r: seq<T>)
    ensures |r| == if |v| <= n then |v| else n
  {
    if |v| <= n then v else v[|v| - n..]
  }

  function Take<T>(v: seq<T>, n: nat): (r: seq<T>)
    ensures |r| == if |v| <= n then |v| else n
  {
    if |v| <= n then v else v[..n]
  }

  lemma {:induction false} SelectPrefix(v: seq<Event>, p: Event -> bool, i: nat)
    requires i <= |v|
    ensures Select(v[..i], p) <= Select(v, p)
  {
    if i < |v| {
      SelectPrefix(v[..|v| - 1], p, i);
      assert v[..|v| - 1][..i] == v[..i];
    } else {
      assert v[..i] == v;
    }
  }

  lemma {:induction false} SelectSound(v: seq<Event>, p: Event -> bool)
    ensures forall e :: e in Select(v, p) <==> e in v && p(e)
  {
    if v != [] {
      SelectSound(v[..|v| - 1], p);
      assert v == v[..|v| - 1] + [v[|v| - 1]];
    }
  }
}
