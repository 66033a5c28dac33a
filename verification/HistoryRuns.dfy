/** What every run of history operations keeps: the ring is exactly the newest logged events, ids
    order them, and the overflow flag tells the truth. */
module HistoryRuns {
  import opened Bytes
  import opened Events
  import opened History

  datatype Op =
    | DoLog(durationMs: u16, uptime: u32, epoch: u32)
    | DoMark(id: u32)
    | DoMarkAll(ids: seq<u32>)
    | DoFastForward(id: u32)
    | DoTimeSync(epoch: u32, uptime: u32)

  function Apply(h: History, capacity: nat, op: Op): History {
    match op
    case DoLog(durationMs, uptime, epoch) => Log(h, capacity, durationMs, uptime, epoch)
    case DoMark(id) => MarkSynced(h, id)
    case DoMarkAll(ids) => h.(events := MarkAll(h.events, ids))
    case DoFastForward(id) => FastForward(h, id)
    case DoTimeSync(epoch, uptime) => TimeSync(h, epoch, uptime)
  }

  function Run(h: History, capacity: nat, ops: seq<Op>): History {
    if ops == [] then h else Apply(Run(h, capacity, ops[..|ops| - 1]), capacity, ops[|ops| - 1])
  }

  /** Everything a run logged, in order, each event as it was created. */
  function Logged(h: History, capacity: nat, ops: seq<Op>): seq<EventCore> {
    if ops == [] then [] else
      var init, op := ops[..|ops| - 1], ops[|ops| - 1];
      Logged(h, capacity, init)
      + if op.DoLog? then [NewEvent(Run(h, capacity, init), capacity, op.durationMs, op.uptime, op.epoch).Core()]
          else []
  }

  // ---------- the ring is the newest logged events

  lemma {:induction false} RingIsNewestLogged(h: History, capacity: nat, ops: seq<Op>)
    requires |h.events| <= capacity
    ensures Cores(Run(h, capacity, ops).events) == Last(Cores(h.events) + Logged(h, capacity, ops), capacity)
  {
    if ops == [] {
      assert Cores(h.events) + [] == Cores(h.events);
    } else {
      var init, op := ops[..|ops| - 1], ops[|ops| - 1];
      RingIsNewestLogged(h, capacity, init);
      var g := Run(h, capacity, init);
      var past := Cores(h.events) + Logged(h, capacity, init);
      if op.DoLog? {
        var e := NewEvent(g, capacity, op.durationMs, op.uptime, op.epoch);
        LogCores(g, capacity, e);
        LastSnoc(past, e.Core(), capacity);
        assert Cores(h.events) + Logged(h, capacity, ops) == past + [e.Core()];
      } else {
        OthersKeepCores(g, capacity, op);
        assert Logged(h, capacity, ops) == Logged(h, capacity, init);
      }
    }
  }

  lemma LogCores(g: History, capacity: nat, e: Event)
    ensures Cores(Last(g.events + [e], capacity)) == Last(Cores(g.events) + [e.Core()], capacity)
  {
  }

  lemma LastSnoc<T>(past: seq<T>, x: T, n: nat)
    ensures Last(Last(past, n) + [x], n) == Last(past + [x], n)
  {
  }

  lemma OthersKeepCores(g: History, capacity: nat, op: Op)
    requires !op.DoLog?
    ensures Cores(Apply(g, capacity, op).events) == Cores(g.events)
    ensures Apply(g, capacity, op).bootCount == g.bootCount
  {
    if op.DoMarkAll? {
      MarkAllCores(g.events, op.ids);
    }
  }

  lemma {:induction false} MarkAllCores(v: seq<Event>, ids: seq<u32>)
    ensures Cores(MarkAll(v, ids)) == Cores(v)
  {
    if ids != [] {
      MarkAllCores(v, ids[..|ids| - 1]);
      var w := MarkAll(v, ids[..|ids| - 1]);
      var i := FirstWithId(w, ids[|ids| - 1]);
      if i < |w| {
        SyncKeepsCore(w[i]);
      }
    }
  }

  // ---------- the overflow flag

  /** The k-th event a run logs carries the overflow flag exactly when storing it cost the ring an
      older one: when the ring already held, counting what it started with, capacity events. */
  lemma {:induction false} OverflowFlagExact(h: History, capacity: nat, ops: seq<Op>, k: nat)
    requires |h.events| <= capacity && k < |Logged(h, capacity, ops)|
    ensures Logged(h, capacity, ops)[k].evicted <==> |h.events| + k >= capacity
  {
    var init, op := ops[..|ops| - 1], ops[|ops| - 1];
    if k < |Logged(h, capacity, init)| {
      OverflowFlagExact(h, capacity, init, k);
    } else {
      RingIsNewestLogged(h, capacity, init);
      var g := Run(h, capacity, init);
      assert |Cores(g.events)| == |g.events|;
    }
  }

  // ---------- the flag of an estimated time

  /** It is set and wiped again before a new event is stored: no run ever leaves it on an event. */
  lemma {:induction false} NeverMarkedEstimated(h: History, capacity: nat, ops: seq<Op>)
    requires forall e :: e in h.events ==> !e.IsTimeEstimated()
    ensures forall e :: e in Run(h, capacity, ops).events ==> !e.IsTimeEstimated()
  {
    if ops != [] {
      var init, op := ops[..|ops| - 1], ops[|ops| - 1];
      NeverMarkedEstimated(h, capacity, init);
      var g := Run(h, capacity, init);
      match op {
        case DoLog(durationMs, uptime, epoch) =>
          LoggedUnmarked(g, capacity, durationMs, uptime, epoch);
        case DoMark(id) => MarkingUnmarked(g.events, id);
        case DoMarkAll(ids) => MarkingAllUnmarked(g.events, ids);
        case DoTimeSync(epoch, uptime) => StampingUnmarked(g, epoch, uptime);
        case DoFastForward(id) =>
      }
    }
  }

  lemma StampingUnmarked(g: History, epoch: u32, uptime: u32)
    requires forall e :: e in g.events ==> !e.IsTimeEstimated()
    ensures forall e :: e in TimeSync(g, epoch, uptime).events ==> !e.IsTimeEstimated()
  {
    forall e | e in TimeSync(g, epoch, uptime).events
      ensures !e.IsTimeEstimated()
    {
      var i :| 0 <= i < |g.events| && Backfill(g.events[i], g.bootCount, epoch, uptime) == e;
      assert g.events[i] in g.events;
    }
  }

  lemma LoggedUnmarked(g: History, capacity: nat, durationMs: u16, uptime: u32, epoch: u32)
    requires forall e :: e in g.events ==> !e.IsTimeEstimated()
    ensures forall e :: e in Log(g, capacity, durationMs, uptime, epoch).events ==> !e.IsTimeEstimated()
  {
    var logged := NewEvent(g, capacity, durationMs, uptime, epoch);
    assert forall e :: e in Last(g.events + [logged], capacity) ==> e in g.events + [logged];
    assert forall e :: e in g.events + [logged] ==> e in g.events || e == logged;
  }

  lemma MarkingUnmarked(v: seq<Event>, id: u32)
    requires forall e :: e in v ==> !e.IsTimeEstimated()
    ensures forall e :: e in MarkFirst(v, id) ==> !e.IsTimeEstimated()
  {
    var i := FirstWithId(v, id);
    if i < |v| {
      assert v[i] in v;
      assert forall e :: e in MarkFirst(v, id) ==> e in v || e == v[i].SetSynced();
    }
  }

  lemma {:induction false} MarkingAllUnmarked(v: seq<Event>, ids: seq<u32>)
    requires forall e :: e in v ==> !e.IsTimeEstimated()
    ensures forall e :: e in MarkAll(v, ids) ==> !e.IsTimeEstimated()
  {
    if ids != [] {
      MarkingAllUnmarked(v, ids[..|ids| - 1]);
      MarkingUnmarked(MarkAll(v, ids[..|ids| - 1]), ids[|ids| - 1]);
    }
  }

  // ---------- ids

  predicate Increasing(v: seq<EventCore>) {
    forall i, j :: 0 <= i < j < |v| ==> v[i].id < v[j].id
  }

  predicate Ordered(h: History) {
    && (forall i, j :: 0 <= i < j < |h.events| ==> h.events[i].id < h.events[j].id)
    && forall i :: 0 <= i < |h.events| ==> h.events[i].id <= h.latestId
  }

  /** Logging keeps ids strictly increasing and bounded by the counter exactly until the 32-bit
      counter wraps with other events still stored. */
  lemma LogKeepsOrderIff(h: History, capacity: nat, durationMs: u16, uptime: u32, epoch: u32)
    requires Ordered(h)
    ensures var g := Log(h, capacity, durationMs, uptime, epoch);
      Ordered(g) <==> h.latestId != U32_COUNT - 1 || capacity <= 1 || h.events == []
  {
    var e := NewEvent(h, capacity, durationMs, uptime, epoch);
    var g := Log(h, capacity, durationMs, uptime, epoch);
    if h.latestId != U32_COUNT - 1 {
      SnocOrdered(h, e, g, capacity);
    } else {
      var n := |g.events|;
      assert e.id == 0;
      if n > 0 {
        assert g.events[n - 1] == e;
      }
      if n > 1 {
        assert !(g.events[n - 2].id < g.events[n - 1].id);
      }
    }
  }

  lemma SnocOrdered(h: History, e: Event, g: History, capacity: nat)
    requires Ordered(h) && e.id == g.latestId == h.latestId + 1
    requires g.events == Last(h.events + [e], capacity)
    ensures Ordered(g)
  {
    var all := h.events + [e];
    var d := |all| - |g.events|;
    forall i, j | 0 <= i < j < |g.events|
      ensures g.events[i].id < g.events[j].id
    {
      assert g.events[i] == all[d + i] && g.events[j] == all[d + j];
    }
    forall i | 0 <= i < |g.events|
      ensures g.events[i].id <= g.latestId
    {
      assert g.events[i] == all[d + i];
    }
  }

  /** No log of the run meets an exhausted counter. */
  predicate NoWrap(h: History, capacity: nat, ops: seq<Op>) {
    forall k :: 0 <= k < |ops| && ops[k].DoLog? ==> Run(h, capacity, ops[..k]).latestId != U32_COUNT - 1
  }

  lemma NoWrapInit(h: History, capacity: nat, ops: seq<Op>)
    requires ops != [] && NoWrap(h, capacity, ops)
    ensures NoWrap(h, capacity, ops[..|ops| - 1])
  {
    var init := ops[..|ops| - 1];
    forall k | 0 <= k < |init| && init[k].DoLog?
      ensures Run(h, capacity, init[..k]).latestId != U32_COUNT - 1
    {
      assert init[..k] == ops[..k];
    }
  }

  /** Ids order the events of a run as they were logged, and stay above everything stored before. */
  lemma {:induction false} IdsOrderTheRun(h: History, capacity: nat, ops: seq<Op>)
    requires Ordered(h) && NoWrap(h, capacity, ops)
    ensures Ordered(Run(h, capacity, ops))
    ensures Increasing(Logged(h, capacity, ops))
    ensures forall i :: 0 <= i < |Logged(h, capacity, ops)| ==>
              h.latestId < Logged(h, capacity, ops)[i].id <= Run(h, capacity, ops).latestId
    ensures h.latestId <= Run(h, capacity, ops).latestId
  {
    if ops != [] {
      var init, op := ops[..|ops| - 1], ops[|ops| - 1];
      NoWrapInit(h, capacity, ops);
      IdsOrderTheRun(h, capacity, init);
      var g := Run(h, capacity, init);
      hide Ordered, Run, Log, NoWrap;
      RunUnfold(h, capacity, ops);
      if op.DoLog? {
        assert g.latestId != U32_COUNT - 1 by { NoWrapLast(h, capacity, ops); }
        LogKeepsOrderIff(g, capacity, op.durationMs, op.uptime, op.epoch);
        LogLatest(g, capacity, op.durationMs, op.uptime, op.epoch);
      } else {
        OthersKeepCores(g, capacity, op);
        OthersKeepIds(g, Apply(g, capacity, op));
      }
    }
  }

  lemma RunUnfold(h: History, capacity: nat, ops: seq<Op>)
    requires ops != []
    ensures Run(h, capacity, ops) == Apply(Run(h, capacity, ops[..|ops| - 1]), capacity, ops[|ops| - 1])
  {
  }

  lemma NoWrapLast(h: History, capacity: nat, ops: seq<Op>)
    requires ops != [] && NoWrap(h, capacity, ops) && ops[|ops| - 1].DoLog?
    ensures Run(h, capacity, ops[..|ops| - 1]).latestId != U32_COUNT - 1
  {
  }

  lemma LogLatest(g: History, capacity: nat, durationMs: u16, uptime: u32, epoch: u32)
    requires g.latestId != U32_COUNT - 1
    ensures Log(g, capacity, durationMs, uptime, epoch).latestId == g.latestId + 1
    ensures NewEvent(g, capacity, durationMs, uptime, epoch).Core().id == g.latestId + 1
  {
  }

  lemma OthersKeepIds(g: History, f: History)
    requires Ordered(g) && Cores(f.events) == Cores(g.events) && g.latestId <= f.latestId
    ensures Ordered(f)
  {
    assert forall i :: 0 <= i < |f.events| ==>
        f.events[i].id == Cores(f.events)[i].id == Cores(g.events)[i].id == g.events[i].id;
  }
}
