/** Catching up: a sync request sends the oldest stored events after a given id, ten at a time. */
module SyncPaging {
  import opened Bytes
  import opened Events
  import opened History
  import HistoryRuns

  const PAGE: byte := 10

  predicate Ascending(v: seq<Event>) {
    forall i, j :: 0 <= i < j < |v| ==> v[i].id < v[j].id
  }

  // ---------- what comes after an id

  /** In an ascending ring the events after an id are the rest of the ring. */
  lemma {:induction false} SinceIsSuffix(v: seq<Event>, id: u32)
    requires Ascending(v)
    ensures var c := |v| - |Since(v, id)|;
      && Since(v, id) == v[c..]
      && forall i :: 0 <= i < |v| ==> (v[i].id > id <==> c <= i)
  {
    if v != [] {
      var n := |v| - 1;
      SinceIsSuffix(v[..n], id);
      var c := n - |Since(v[..n], id)|;
      assert Since(v[..n], id) == v[..n][c..];
      if v[n].id > id {
        assert Since(v, id) == v[..n][c..] + [v[n]] == v[c..];
      } else {
        assert forall i :: 0 <= i < n ==> v[..n][i].id == v[i].id < v[n].id;
        assert c == n;
        assert Since(v, id) == [] == v[n + 1..];
      }
    }
  }

  /** Asking again from the last id received continues where the answer stopped. */
  lemma SinceAfter(v: seq<Event>, id: u32, k: nat)
    requires Ascending(v) && k < |Since(v, id)|
    ensures Since(v, Since(v, id)[k].id) == Since(v, id)[k + 1..]
  {
    hide Select;
    SinceIsSuffix(v, id);
    var c := |v| - |Since(v, id)|;
    var last := v[c + k].id;
    SinceIsSuffix(v, last);
    var d := |v| - |Since(v, last)|;
    assert c + k + 1 < |v| ==> v[c + k + 1].id > last;
    assert d == c + k + 1;
    assert v[d..] == v[c..][k + 1..];
  }

  /** Up to n events fetched one at a time, each the first one after the last. */
  function OneByOne(v: seq<Event>, since: u32, n: nat): (page: seq<Event>)
    ensures |page| <= n
    decreases n
  {
    var found := Since(v, since);
    if n == 0 || found == [] then [] else [found[0]] + OneByOne(v, found[0].id, n - 1)
  }

  /** Where that walk stands after k events. */
  function Cursor(page: seq<Event>, since: u32, k: nat): u32
    requires k <= |page|
  {
    if k == 0 then since else page[k - 1].id
  }

  lemma {:induction false} OneByOneAt(v: seq<Event>, since: u32, n: nat, k: nat)
    requires k < n && k <= |OneByOne(v, since, n)|
    ensures
      var page := OneByOne(v, since, n);
      Take(Since(v, Cursor(page, since, k)), 1) == if k == |page| then [] else [page[k]]
    decreases n
  {
    var found := Since(v, since);
    if k > 0 {
      OneByOneAt(v, found[0].id, n - 1, k - 1);
    }
  }

  /** In an ascending ring that is a page: the oldest n events after the id, in order. */
  lemma {:induction false} OneByOneIsPage(v: seq<Event>, since: u32, n: nat)
    requires Ascending(v)
    ensures OneByOne(v, since, n) == Take(Since(v, since), n)
    decreases n
  {
    var all := Since(v, since);
    if n > 0 && all != [] {
      SinceAfter(v, since, 0);
      OneByOneIsPage(v, all[0].id, n - 1);
      hide Since, Ascending;
      TakeFirst(all, n);
    }
  }

  lemma TakeFirst<T>(all: seq<T>, n: nat)
    requires n > 0 && all != []
    ensures Take(all, n) == [all[0]] + Take(all[1..], n - 1)
  {
  }

  // ---------- repeated requests

  function Page(v: seq<Event>, since: u32): seq<Event> {
    Take(Since(v, since), PAGE)
  }

  /** Everything n requests receive, each asking from the last id received. */
  function Received(v: seq<Event>, since: u32, n: nat): seq<Event>
    decreases n
  {
    if n == 0 then [] else
      var page := Page(v, since);
      page + if page == [] then [] else Received(v, page[|page| - 1].id, n - 1)
  }

  /** n requests receive exactly the first 10n events after since: none twice, none left out. */
  lemma {:induction false} ReceivedIsPrefix(v: seq<Event>, since: u32, n: nat)
    requires Ascending(v)
    ensures Received(v, since, n) == Take(Since(v, since), n * 10)
    decreases n
  {
    hide Since, Ascending;
    if n > 0 {
      var page, later := Page(v, since), (n - 1) * PAGE;
      assert n * PAGE == PAGE + later;
      if page != [] {
        var last := page[|page| - 1].id;
        assert Received(v, since, n) == page + Received(v, last, n - 1);
        hide Received;
        ReceivedIsPrefix(v, last, n - 1);
        PageThenRest(v, since, later);
        hide Page, Take;
      }
    }
  }

  lemma PageThenRest(v: seq<Event>, since: u32, later: nat)
    requires Ascending(v) && Page(v, since) != []
    ensures
      var page := Page(v, since);
      page + Take(Since(v, page[|page| - 1].id), later) == Take(Since(v, since), PAGE + later)
  {
    var all, page := Since(v, since), Page(v, since);
    SinceAfter(v, since, |page| - 1);
    hide Since, Ascending;
    TakeMore(all, PAGE, later);
  }

  /** Taking some and then some more. */
  lemma TakeMore<T>(all: seq<T>, m: nat, n: nat)
    ensures var some := Take(all, m); some + Take(all[|some|..], n) == Take(all, m + n)
  {
  }

  /** Enough requests deliver every stored event after since, in order, once. */
  lemma RequestsCatchUp(v: seq<Event>, since: u32, n: nat)
    requires Ascending(v) && |Since(v, since)| <= n * 10
    ensures Received(v, since, n) == Since(v, since)
  {
    ReceivedIsPrefix(v, since, n);
  }

  // ---------- while the ring keeps changing

  /** A walk from an id: the ring, the cursor and what was sent so far. */
  datatype Walk = Walk(hist: History, cursor: u32, sent: seq<EventCore>)

  /** sent tells whether the radio took the event. */
  datatype Step = Ring(op: HistoryRuns.Op) | SendNext(sent: bool)

  function Apply(w: Walk, capacity: nat, step: Step): Walk {
    match step
    case Ring(op) => w.(hist := HistoryRuns.Apply(w.hist, capacity, op))
    case SendNext(sent) =>
      var found := Since(w.hist.events, w.cursor);
      if found == [] || !sent then w else w.(cursor := found[0].id, sent := w.sent + [found[0].Core()])
  }

  function Run(w: Walk, capacity: nat, steps: seq<Step>): Walk {
    if steps == [] then w else Apply(Run(w, capacity, steps[..|steps| - 1]), capacity, steps[|steps| - 1])
  }

  predicate NoWrap(w: Walk, capacity: nat, steps: seq<Step>) {
    forall k :: 0 <= k < |steps| && steps[k].Ring? && steps[k].op.DoLog? ==>
      Run(w, capacity, steps[..k]).hist.latestId != U32_COUNT - 1
  }

  /** Nothing that is stored between the starting id and the cursor was left out. */
  predicate Complete(w: Walk, since: u32) {
    && HistoryRuns.Ordered(w.hist)
    && HistoryRuns.Increasing(w.sent)
    && (forall i :: 0 <= i < |w.sent| ==> since < w.sent[i].id <= w.cursor)
    && (w.cursor == since || w.cursor <= w.hist.latestId)
    && since <= w.cursor
    && forall e :: e in w.hist.events && since < e.id <= w.cursor ==> e.Core() in w.sent
  }

  /** However logging, marking, time sync and fast-forward interleave with a walk, it sends events in
      strictly increasing id order and skips none that is still stored. */
  lemma {:induction false} WalkSkipsNothing(w: Walk, capacity: nat, steps: seq<Step>)
    requires HistoryRuns.Ordered(w.hist) && w.sent == [] && NoWrap(w, capacity, steps)
    ensures Complete(Run(w, capacity, steps), w.cursor)
  {
    if steps != [] {
      var init, step := steps[..|steps| - 1], steps[|steps| - 1];
      assert NoWrap(w, capacity, init) by {
        assert forall k :: 0 <= k < |init| ==> init[..k] == steps[..k];
      }
      WalkSkipsNothing(w, capacity, init);
      var v := Run(w, capacity, init);
      match step {
        case Ring(op) =>
          assert op.DoLog? ==> v.hist.latestId != U32_COUNT - 1 by {
            assert steps[..|init|] == init;
          }
          RingKeepsComplete(v, capacity, op, w.cursor);
        case SendNext(sent) =>
          if sent && Since(v.hist.events, v.cursor) != [] {
            SendKeepsComplete(v, capacity, w.cursor);
          }
      }
    }
  }

  lemma RingKeepsComplete(w: Walk, capacity: nat, op: HistoryRuns.Op, since: u32)
    requires Complete(w, since) && (op.DoLog? ==> w.hist.latestId != U32_COUNT - 1)
    ensures Complete(Apply(w, capacity, Ring(op)), since)
  {
    if op.DoLog? {
      LogKeepsComplete(w, capacity, op, since);
    } else {
      OthersKeepComplete(w, capacity, op, since);
    }
  }

  lemma LogKeepsComplete(w: Walk, capacity: nat, op: HistoryRuns.Op, since: u32)
    requires Complete(w, since) && op.DoLog? && w.hist.latestId != U32_COUNT - 1
    ensures Complete(Apply(w, capacity, Ring(op)), since)
  {
    var h, g := w.hist, HistoryRuns.Apply(w.hist, capacity, op);
    HistoryRuns.LogKeepsOrderIff(h, capacity, op.durationMs, op.uptime, op.epoch);
    assert g.latestId == h.latestId + 1;
    LogAdds(h, capacity, op);
    hide HistoryRuns.Apply, HistoryRuns.Ordered, HistoryRuns.Increasing;
  }

  lemma LogAdds(h: History, capacity: nat, op: HistoryRuns.Op)
    requires op.DoLog? && h.latestId != U32_COUNT - 1
    ensures forall e :: e in HistoryRuns.Apply(h, capacity, op).events ==> e in h.events || e.id == h.latestId + 1
  {
  }

  lemma OthersKeepComplete(w: Walk, capacity: nat, op: HistoryRuns.Op, since: u32)
    requires Complete(w, since) && !op.DoLog?
    ensures Complete(Apply(w, capacity, Ring(op)), since)
  {
    var g := HistoryRuns.Apply(w.hist, capacity, op);
    HistoryRuns.OthersKeepCores(w.hist, capacity, op);
    HistoryRuns.OthersKeepIds(w.hist, g);
    hide HistoryRuns.Apply, HistoryRuns.Ordered, HistoryRuns.Increasing;
    forall e | e in g.events && since < e.id <= w.cursor
      ensures e.Core() in w.sent
    {
      var i :| 0 <= i < |g.events| && g.events[i] == e;
      assert Cores(g.events)[i] == Cores(w.hist.events)[i];
      assert w.hist.events[i] in w.hist.events;
    }
  }

  lemma SendKeepsComplete(w: Walk, capacity: nat, since: u32)
    requires Complete(w, since) && Since(w.hist.events, w.cursor) != []
    ensures Complete(Apply(w, capacity, SendNext(true)), since)
  {
    var v, u := w.hist.events, Apply(w, capacity, SendNext(true));
    SinceIsSuffix(v, w.cursor);
    hide Since;
    var c := |v| - |Since(v, w.cursor)|;
    assert v[c..][0] == v[c];
    assert u.sent == w.sent + [v[c].Core()] && u.cursor == v[c].id;
    forall e | e in v && since < e.id <= u.cursor
      ensures e.Core() in u.sent
    {
      var i :| 0 <= i < |v| && v[i] == e;
      if i < c {
        assert e.Core() in w.sent;
      } else {
        assert i == c;
      }
    }
  }

  /** A walk that finds nothing more has sent every event after its starting id that is still stored. */
  lemma DrainedWalkSentAll(w: Walk, capacity: nat, steps: seq<Step>)
    requires HistoryRuns.Ordered(w.hist) && w.sent == [] && NoWrap(w, capacity, steps)
    requires Since(Run(w, capacity, steps).hist.events, Run(w, capacity, steps).cursor) == []
    ensures forall e :: e in Run(w, capacity, steps).hist.events && e.id > w.cursor ==>
        e.Core() in Run(w, capacity, steps).sent
  {
    WalkSkipsNothing(w, capacity, steps);
    var r := Run(w, capacity, steps);
    SinceIsSuffix(r.hist.events, r.cursor);
  }
}
