/** What becomes of one logged event: the fields it is stored with, and its timestamp through every later
    operation, as long as it is stored. */
module EventFates {
  import opened Bytes
  import opened Events
  import opened History
  import opened HistoryRuns
  import TimeSync
  import PowerCycles

  /** The event that p others were logged after. */
  function Back(h: History, p: nat): Event
    requires p < |h.events|
  {
    h.events[|h.events| - 1 - p]
  }

  /** How many events a run logs. */
  function Logs(ops: seq<Op>): nat {
    if ops == [] then 0 else Logs(ops[..|ops| - 1]) + if ops[|ops| - 1].DoLog? then 1 else 0
  }

  // ---------- as stored

  /** The newest event has the next id and the given uptime, duration and boot; the clock's time if that is
      2020 or later, else none; and no flag but that of an eviction. The others stay, but for the oldest of
      a full ring. */
  lemma StoredAs(h: History, capacity: nat, durationMs: u16, uptime: u32, epoch: u32)
    requires capacity > 0 && |h.events| <= capacity
    ensures
      var g := Apply(h, capacity, DoLog(durationMs, uptime, epoch));
      && g.events != []
      && var e := g.events[|g.events| - 1];
      && e.id == g.latestId == (h.latestId + 1) % 4294967296
      && e.timestampMs == uptime && e.durationMs == durationMs && e.bootCount == h.bootCount == g.bootCount
      && e.timestamp == (if epoch >= 1577836800 then epoch else 0)
      && e.flags == (if |h.events| == capacity then 2 else 0)
      && g.events[..|g.events| - 1] == if |h.events| == capacity then h.events[1..] else h.events
  {
  }

  // ---------- one operation later

  /** The place of the same event after an operation. */
  function Moved(p: nat, op: Op): nat {
    if op.DoLog? then p + 1 else p
  }

  predicate SameEvent(e: Event, f: Event) {
    e.id == f.id && e.timestampMs == f.timestampMs && e.durationMs == f.durationMs && e.bootCount == f.bootCount
  }

  lemma StepBack(h: History, capacity: nat, op: Op, p: nat)
    requires p < |h.events| && Moved(p, op) < capacity
    ensures
      var g := Apply(h, capacity, op);
      && Moved(p, op) < |g.events| && g.bootCount == h.bootCount
      && var e, f := Back(h, p), Back(g, Moved(p, op));
      && SameEvent(f, e)
      && f.timestamp == if op.DoTimeSync? && e.bootCount == h.bootCount && e.timestamp == 0
                        then Stamp(op.epoch, op.uptime, e.timestampMs) else e.timestamp
  {
    var i := |h.events| - 1 - p;
    match op {
      case DoLog(durationMs, uptime, epoch) =>
        assert (h.events + [NewEvent(h, capacity, durationMs, uptime, epoch)])[i] == h.events[i];
        hide NewEvent;
      case DoMark(id) => PowerCycles.MarkFirstKeeps(h.events, id, i);
      case DoMarkAll(ids) => PowerCycles.MarkAllKeeps(h.events, ids, i);
      case DoFastForward(id) =>
      case DoTimeSync(epoch, uptime) => assert Apply(h, capacity, op).events[i]
          == Backfill(h.events[i], h.bootCount, epoch, uptime);
    }
  }

  // ---------- and for good

  predicate NoSync(ops: seq<Op>) {
    forall k :: 0 <= k < |ops| ==> !ops[k].DoTimeSync?
  }

  /** The event with place p in h has place q in g; a dated one has its time, and so has any if no sync came
      in between. */
  predicate Kept(h: History, p: nat, g: History, q: nat, quiet: bool)
    requires p < |h.events|
  {
    && q < |g.events| && g.bootCount == h.bootCount
    && SameEvent(Back(g, q), Back(h, p))
    && (Back(h, p).timestamp != 0 || quiet ==> Back(g, q).timestamp == Back(h, p).timestamp)
  }

  lemma KeptStep(h: History, p: nat, g: History, q: nat, quiet: bool, capacity: nat, op: Op)
    requires p < |h.events| && Kept(h, p, g, q, quiet) && Moved(q, op) < capacity
    ensures Kept(h, p, Apply(g, capacity, op), Moved(q, op), quiet && !op.DoTimeSync?)
  {
    hide Apply, Back, Stamp;
    StepBack(g, capacity, op, q);
  }

  lemma {:induction false} RunBack(h: History, capacity: nat, ops: seq<Op>, p: nat)
    requires p < |h.events| && p + Logs(ops) < capacity
    ensures Kept(h, p, Run(h, capacity, ops), p + Logs(ops), NoSync(ops))
  {
    hide Run, Logs, Apply, Kept, NoSync;
    if ops == [] {
      NothingYet(h, capacity, p);
    } else {
      var n := |ops| - 1;
      Unfold(h, capacity, ops[..n], ops[n]);
      assert ops == ops[..n] + [ops[n]];
      RunBack(h, capacity, ops[..n], p);
      KeptStep(h, p, Run(h, capacity, ops[..n]), p + Logs(ops[..n]), NoSync(ops[..n]), capacity, ops[n]);
    }
  }

  lemma NothingYet(h: History, capacity: nat, p: nat)
    requires p < |h.events|
    ensures Logs([]) == 0 && Kept(h, p, Run(h, capacity, []), p, NoSync([]))
  {
  }

  lemma {:induction false} RunConcat(h: History, capacity: nat, a: seq<Op>, b: seq<Op>)
    ensures Run(h, capacity, a + b) == Run(Run(h, capacity, a), capacity, b)
    ensures Logs(a + b) == Logs(a) + Logs(b)
  {
    hide Apply;
    if b == [] {
      assert a + b == a;
    } else {
      var n := |b| - 1;
      RunConcat(h, capacity, a, b[..n]);
      assert a + b == (a + b[..n]) + [b[n]];
      Unfold(h, capacity, a + b[..n], b[n]);
      Unfold(Run(h, capacity, a), capacity, b[..n], b[n]);
      assert b == b[..n] + [b[n]];
      hide Run, Logs;
    }
  }

  lemma Unfold(h: History, capacity: nat, ops: seq<Op>, op: Op)
    ensures Run(h, capacity, ops + [op]) == Apply(Run(h, capacity, ops), capacity, op)
    ensures Logs(ops + [op]) == Moved(Logs(ops), op)
    ensures NoSync(ops + [op]) <==> NoSync(ops) && !op.DoTimeSync?
  {
    assert NoSync(ops + [op]) ==> forall k :: 0 <= k < |ops| ==> !(ops + [op])[k].DoTimeSync?;
    assert (ops + [op])[..|ops|] == ops;
    hide Apply;
  }

  lemma RunOne(h: History, capacity: nat, op: Op)
    ensures Run(h, capacity, [op]) == Apply(h, capacity, op) && Logs([op]) == if op.DoLog? then 1 else 0
  {
    assert [op][..0] == [];
    hide Apply;
  }

  /** An event logged under a valid clock keeps that time through whatever follows, and one logged without
      has none until the first time sync. */
  lemma TimeOfLogged(h: History, capacity: nat, durationMs: u16, uptime: u32, epoch: u32, after: seq<Op>)
    requires |h.events| <= capacity && Logs(after) < capacity
    ensures
      var g := Run(h, capacity, [DoLog(durationMs, uptime, epoch)] + after);
      && Logs(after) < |g.events|
      && var e := Back(g, Logs(after));
      && e.timestampMs == uptime && e.durationMs == durationMs && e.bootCount == h.bootCount == g.bootCount
      && (epoch >= 1577836800 ==> e.timestamp == epoch)
      && (epoch < 1577836800 && NoSync(after) ==> e.timestamp == 0)
  {
    var op := DoLog(durationMs, uptime, epoch);
    var v := Apply(h, capacity, op);
    NewestIs(h, capacity, durationMs, uptime, epoch);
    hide Run, Apply, Back, Logs, NoSync;
    RunOne(h, capacity, op);
    RunConcat(h, capacity, [op], after);
    RunBack(v, capacity, after, 0);
  }

  lemma NewestIs(h: History, capacity: nat, durationMs: u16, uptime: u32, epoch: u32)
    requires capacity > 0 && |h.events| <= capacity
    ensures
      var v := Apply(h, capacity, DoLog(durationMs, uptime, epoch));
      && v.events != [] && v.bootCount == h.bootCount
      && var e := Back(v, 0);
      && e.timestampMs == uptime && e.durationMs == durationMs && e.bootCount == h.bootCount
      && e.timestamp == if epoch >= 1577836800 then epoch else 0
  {
    StoredAs(h, capacity, durationMs, uptime, epoch);
    hide Apply;
  }

  /** The first time sync after it gives such an event the documented time, less the carry, and nothing
      changes that any more. */
  lemma FirstSyncDates(h: History, capacity: nat, durationMs: u16, uptime: u32, epoch: u32, before: seq<Op>,
      phone: u32, now: u32, after: seq<Op>)
    requires |h.events| <= capacity && Logs(before) + Logs(after) < capacity
    requires epoch < 1577836800 && NoSync(before)
    requires uptime <= now && phone > now / 1000
    ensures
      var ops := [DoLog(durationMs, uptime, epoch)] + before + [DoTimeSync(phone, now)] + after;
      var g := Run(h, capacity, ops);
      && Logs(before) + Logs(after) < |g.events|
      && Back(g, Logs(before) + Logs(after)).timestamp
          == phone - (now - uptime) / 1000 - if now % 1000 < uptime % 1000 then 1 else 0
  {
    var log, sync := DoLog(durationMs, uptime, epoch), DoTimeSync(phone, now);
    hide Run, Apply, Back, Logs, Stamp;
    TimeOfLogged(h, capacity, durationMs, uptime, epoch, before);
    var u := Run(h, capacity, [log] + before);
    StepBack(u, capacity, sync, Logs(before));
    TimeSync.StampAgainstDocumented(phone, now, uptime);
    RunOne(u, capacity, sync);
    RunConcat(h, capacity, [log] + before, [sync]);
    RunConcat(h, capacity, [log] + before + [sync], after);
    RunBack(Apply(u, capacity, sync), capacity, after, Logs(before));
  }

  // ---------- time sync and fast-forward

  /** After a time sync no event of this boot that lies in its past is without a time, and no other event has
      changed. */
  lemma SyncDatesAll(h: History, phone: u32, now: u32, i: nat)
    requires i < |h.events| && phone > now / 1000
    ensures
      var v := Apply(h, 0, DoTimeSync(phone, now)).events;
      && |v| == |h.events|
      && var e := h.events[i];
      if e.bootCount == h.bootCount && e.timestamp == 0 then
        e.timestampMs <= now ==>
          v[i] == e.(timestamp := phone - (now - e.timestampMs) / 1000
              - if now % 1000 < e.timestampMs % 1000 then 1 else 0) && v[i].timestamp != 0
      else v[i] == e
  {
    var e := h.events[i];
    if e.timestampMs <= now {
      TimeSync.StampAgainstDocumented(phone, now, e.timestampMs);
    }
  }

  /** After a fast-forward the next event's id lies above the given id and above all that were handed out. */
  lemma NextIdAbove(h: History, capacity: nat, id: u32, durationMs: u16, uptime: u32, epoch: u32)
    requires capacity > 0 && |h.events| <= capacity && id < U32_COUNT - 1 && h.latestId < U32_COUNT - 1
    ensures
      var g := Run(h, capacity, [DoFastForward(id), DoLog(durationMs, uptime, epoch)]);
      && g.events != []
      && var newest := g.events[|g.events| - 1].id;
      newest > id && newest > h.latestId && (newest == id + 1 || newest == h.latestId + 1)
  {
    var a, b := DoFastForward(id), DoLog(durationMs, uptime, epoch);
    RunOne(h, capacity, a);
    assert [a, b][..1] == [a];
    StoredAs(Apply(h, capacity, a), capacity, durationMs, uptime, epoch);
  }
}
