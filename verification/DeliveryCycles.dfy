/** Delivery across power cycles: a flag that a backup brings back was earned before the backup was
    copied, and the ring is the newest events of the history it descends from. */
module DeliveryCycles {
  import opened Bytes
  import opened Events
  import opened History
  import opened Pending
  import opened DeliveryTable
  import opened DeliverySafety
  import Delivery
  import HistoryRuns
  import PowerCycles

  /** The tasks of module Delivery, with the backup in flash and the storage worker's copy beside them. */
  datatype Device = Device(world: Delivery.World, backup: Option<History>, copy: Option<History>)

  datatype Step =
    | Live(step: Delivery.Step)
    | FlushCopy
    | FlushWrite
    | FlushFail
    | WarmBoot
    | PowerLoss

  /** A boot: the ring is what RTC memory or the backup gives, all else starts afresh. */
  function Booted(w: Delivery.World, ring: History): Delivery.World {
    var b := w.books;
    Delivery.World(ring, Link(ClearAll(w.link.slots), 0), [], [],
                   Delivery.Books(b.ticket, b.next, b.next, 0, 0, 0, 0, 0, 0))
  }

  function Apply(d: Device, s: Delivery.Setup, step: Step): (r: Device)
    requires Shape(d.world)
    ensures Shape(r.world)
  {
    match step
    case Live(l) =>
      Delivery.ApplyKeepsShape(d.world, s, l);
      d.(world := Delivery.Apply(d.world, s, l))
    case FlushCopy => d.(copy := Some(d.world.hist))
    case FlushWrite => if d.copy.Some? then d.(backup := d.copy, copy := None) else d
    case FlushFail => d.(copy := None)
    case WarmBoot => Device(Booted(d.world, d.world.hist), d.backup, None)
    case PowerLoss => Device(Booted(d.world, ColdBoot(d.backup)), d.backup, None)
  }

  function Run(d: Device, s: Delivery.Setup, steps: seq<Step>): (r: Device)
    requires Shape(d.world)
    ensures Shape(r.world)
  {
    if steps == [] then d else Apply(Run(d, s, steps[..|steps| - 1]), s, steps[|steps| - 1])
  }

  /** A device before its first backup. */
  predicate Fresh(d: Device, s: Delivery.Setup) {
    && Delivery.Initial(d.world) && d.backup == None && d.copy == None
    && |d.world.hist.events| <= s.capacity && HistoryRuns.Ordered(d.world.hist)
  }

  /** No log of the run meets an exhausted id counter. */
  predicate NoWrap(d: Device, s: Delivery.Setup, steps: seq<Step>)
    requires Shape(d.world)
  {
    forall k :: 0 <= k < |steps| && steps[k].Live? && steps[k].step.LogEvent? ==>
      Run(d, s, steps[..k]).world.hist.latestId != U32_COUNT - 1
  }

  lemma NoWrapPrefix(d: Device, s: Delivery.Setup, steps: seq<Step>, n: nat)
    requires Shape(d.world) && NoWrap(d, s, steps) && n <= |steps|
    ensures NoWrap(d, s, steps[..n])
  {
    assert forall k :: 0 <= k < n ==> steps[..n][..k] == steps[..k];
  }

  // ---------- the storage side is that of module PowerCycles

  function Storage(d: Device): PowerCycles.Device {
    PowerCycles.Device(d.world.hist, d.backup, d.copy)
  }

  function StorageStep(d: Device, step: Step): seq<PowerCycles.Step> {
    match step
    case Live(l) => var ops := RingOp(d.world, l); if ops == [] then [] else [PowerCycles.Work(ops[0])]
    case FlushCopy => [PowerCycles.FlushCopy]
    case FlushWrite => [PowerCycles.FlushWrite]
    case FlushFail => [PowerCycles.FlushFail]
    case WarmBoot => [PowerCycles.WarmBoot]
    case PowerLoss => [PowerCycles.PowerLoss]
  }

  function StorageSteps(d: Device, s: Delivery.Setup, steps: seq<Step>): seq<PowerCycles.Step>
    requires Shape(d.world)
  {
    if steps == [] then [] else
      var init := steps[..|steps| - 1];
      StorageSteps(d, s, init) + StorageStep(Run(d, s, init), steps[|steps| - 1])
  }

  lemma StorageOne(d: Device, s: Delivery.Setup, step: Step)
    requires Shape(d.world)
    ensures |StorageStep(d, step)| <= 1
    ensures var seen := StorageStep(d, step);
      Storage(Apply(d, s, step))
          == if seen == [] then Storage(d) else PowerCycles.Apply(Storage(d), s.capacity, seen[0])
  {
    if step.Live? {
      StepOnRing(d.world, s, step.step);
    }
    hide Delivery.Apply, RingOp, HistoryRuns.Apply, ColdBoot;
  }

  /** Ring, copy and backup go through a run of module PowerCycles: what holds there holds here. */
  lemma {:induction false} StorageFollows(d: Device, s: Delivery.Setup, steps: seq<Step>)
    requires Shape(d.world)
    ensures Storage(Run(d, s, steps)) == PowerCycles.Run(Storage(d), s.capacity, StorageSteps(d, s, steps))
  {
    if steps != [] {
      var init, step := steps[..|steps| - 1], steps[|steps| - 1];
      StorageFollows(d, s, init);
      StorageOne(Run(d, s, init), s, step);
      var before, seen := StorageSteps(d, s, init), StorageStep(Run(d, s, init), step);
      hide Apply, Storage, StorageStep, PowerCycles.Apply;
      if seen == [] {
        assert before + seen == before;
      } else {
        assert seen == [seen[0]];
        hide PowerCycles.Run;
        PowerCycles.RunSnoc(Storage(d), s.capacity, before, seen[0]);
      }
    }
  }

  // ---------- what a run descends from

  /** The step that copied what the storage worker holds. */
  function CopiedAt(steps: seq<Step>): (at: Option<nat>)
    ensures at.Some? ==> at.value < |steps|
  {
    if steps == [] then None else
      match steps[|steps| - 1]
      case FlushCopy => Some(|steps| - 1)
      case Live(_) => CopiedAt(steps[..|steps| - 1])
      case _ => None
  }

  /** The step that copied what the backup holds. */
  function BackedUpAt(steps: seq<Step>): (at: Option<nat>)
    ensures at.Some? ==> at.value < |steps|
  {
    if steps == [] then None else
      var init := steps[..|steps| - 1];
      if steps[|steps| - 1].FlushWrite? && CopiedAt(init).Some? then CopiedAt(init) else BackedUpAt(init)
  }

  /** What the ring was at that step. */
  function RingAt(d: Device, s: Delivery.Setup, steps: seq<Step>, at: Option<nat>): Option<History>
    requires Shape(d.world) && (at.Some? ==> at.value <= |steps|)
  {
    if at.Some? then Some(Run(d, s, steps[..at.value]).world.hist) else None
  }

  lemma RingAtPrefix(d: Device, s: Delivery.Setup, steps: seq<Step>, at: Option<nat>, n: nat)
    requires Shape(d.world) && n <= |steps| && (at.Some? ==> at.value <= n)
    ensures RingAt(d, s, steps[..n], at) == RingAt(d, s, steps, at)
  {
    if at.Some? {
      assert steps[..n][..at.value] == steps[..at.value];
    }
  }

  lemma {:induction false} Snapshots(d: Device, s: Delivery.Setup, steps: seq<Step>)
    requires Shape(d.world) && d.backup == None && d.copy == None
    ensures Run(d, s, steps).copy == RingAt(d, s, steps, CopiedAt(steps))
    ensures Run(d, s, steps).backup == RingAt(d, s, steps, BackedUpAt(steps))
  {
    hide Run, CopiedAt, BackedUpAt;
    if steps == [] {
      NoSnapshots(d, s);
    } else {
      var n := |steps| - 1;
      Snapshots(d, s, steps[..n]);
      RingAtPrefix(d, s, steps, CopiedAt(steps[..n]), n);
      RingAtPrefix(d, s, steps, BackedUpAt(steps[..n]), n);
      SnapshotStep(d, s, steps);
    }
  }

  lemma NoSnapshots(d: Device, s: Delivery.Setup)
    requires Shape(d.world)
    ensures Run(d, s, []) == d && RingAt(d, s, [], CopiedAt([])) == RingAt(d, s, [], BackedUpAt([])) == None
  {
  }

  /** What the last step does to copy and backup. */
  lemma SnapshotStep(d: Device, s: Delivery.Setup, steps: seq<Step>)
    requires Shape(d.world) && steps != []
    ensures
      var n := |steps| - 1;
      var v, w := Run(d, s, steps[..n]), Run(d, s, steps);
      w.copy == if steps[n].FlushCopy? then RingAt(d, s, steps, Some(n)) else if steps[n].Live? then v.copy else None
    ensures
      var n := |steps| - 1;
      var v, w := Run(d, s, steps[..n]), Run(d, s, steps);
      w.backup == if steps[n].FlushWrite? && v.copy.Some? then v.copy else v.backup
    ensures
      var n := |steps| - 1;
      var before := CopiedAt(steps[..n]);
      && CopiedAt(steps) == (if steps[n].FlushCopy? then Some(n) else if steps[n].Live? then before else None)
      && BackedUpAt(steps) == (if steps[n].FlushWrite? && before.Some? then before else BackedUpAt(steps[..n]))
  {
    hide Delivery.Apply, Booted;
  }

  /** Where a power loss after these steps goes back to, if the backup counts events. */
  function Restores(d: Device, s: Delivery.Setup, steps: seq<Step>): (at: Option<nat>)
    requires Shape(d.world)
    ensures at.Some? ==> at.value < |steps|
  {
    var at := BackedUpAt(steps);
    if at.Some? && |Run(d, s, steps[..at.value]).world.hist.events| % 0x100 != 0 then at else None
  }

  /** Whether what step k did is part of the history of the ring after the run. */
  predicate Remains(d: Device, s: Delivery.Setup, steps: seq<Step>, k: nat)
    requires Shape(d.world)
    decreases |steps|
  {
    if steps == [] then false else
      var init := steps[..|steps| - 1];
      if steps[|steps| - 1].PowerLoss? then
        var at := Restores(d, s, init);
        at.Some? && Remains(d, s, steps[..at.value], k)
      else k == |init| || Remains(d, s, init, k)
  }

  /** Everything logged in that history, and what the ring held at first. */
  function Heritage(d: Device, s: Delivery.Setup, steps: seq<Step>): seq<EventCore>
    requires Shape(d.world)
    decreases |steps|
  {
    if steps == [] then Cores(d.world.hist.events) else
      var init, step := steps[..|steps| - 1], steps[|steps| - 1];
      match step
      case PowerLoss =>
        var at := Restores(d, s, init);
        if at.Some? then Heritage(d, s, steps[..at.value]) else []
      case Live(l) => Heritage(d, s, init) + Logged(Run(d, s, init).world.hist, s, l)
      case _ => Heritage(d, s, init)
  }

  function Logged(h: History, s: Delivery.Setup, l: Delivery.Step): seq<EventCore> {
    if l.LogEvent? then [NewEvent(h, s.capacity, l.durationMs, l.uptime, l.epoch).Core()] else []
  }

  /** A power loss goes back to the ring that was copied, or to an empty one. */
  lemma LossRestores(d: Device, s: Delivery.Setup, steps: seq<Step>)
    requires Shape(d.world) && d.backup == None && d.copy == None
    ensures
      var at, ring := Restores(d, s, steps), ColdBoot(Run(d, s, steps).backup);
      if at.Some? then
        var copied := Run(d, s, steps[..at.value]).world.hist;
        ring.events == copied.events && ring.latestId == copied.latestId
      else ring == History([], 0, 1)
  {
    Snapshots(d, s, steps);
    hide Run;
  }

  // ---------- the ring is the newest of its history

  predicate Newest(d: Device, s: Delivery.Setup, steps: seq<Step>)
    requires Shape(d.world)
  {
    var h, past := Run(d, s, steps).world.hist, Heritage(d, s, steps);
    && Cores(h.events) == Last(past, s.capacity)
    && HistoryRuns.Increasing(past)
    && forall i :: 0 <= i < |past| ==> past[i].id <= h.latestId
  }

  lemma LiveRing(v: Delivery.World, s: Delivery.Setup, l: Delivery.Step, past: seq<EventCore>)
    requires Shape(v) && Cores(v.hist.events) == Last(past, s.capacity)
    requires HistoryRuns.Increasing(past) && forall i :: 0 <= i < |past| ==> past[i].id <= v.hist.latestId
    requires l.LogEvent? ==> v.hist.latestId != U32_COUNT - 1
    ensures
      var h, now := Delivery.Apply(v, s, l).hist, past + Logged(v.hist, s, l);
      && Cores(h.events) == Last(now, s.capacity)
      && HistoryRuns.Increasing(now)
      && forall i :: 0 <= i < |now| ==> now[i].id <= h.latestId
  {
    var h := v.hist;
    if l.LogEvent? {
      var e := NewEvent(h, s.capacity, l.durationMs, l.uptime, l.epoch);
      HistoryRuns.LogCores(h, s.capacity, e);
      HistoryRuns.LastSnoc(past, e.Core(), s.capacity);
      HistoryRuns.LogLatest(h, s.capacity, l.durationMs, l.uptime, l.epoch);
      hide Cores, Last, NewEvent;
    } else {
      StepOnRing(v, s, l);
      var ops := RingOp(v, l);
      if ops != [] {
        HistoryRuns.OthersKeepCores(h, s.capacity, ops[0]);
        CounterGrows(h, s.capacity, ops[0]);
      }
      hide Delivery.Apply, Cores, HistoryRuns.Apply;
      assert past + Logged(h, s, l) == past;
    }
  }

  lemma CounterGrows(h: History, capacity: nat, op: HistoryRuns.Op)
    requires !op.DoLog?
    ensures h.latestId <= HistoryRuns.Apply(h, capacity, op).latestId
  {
  }

  lemma NewestAtFirst(d: Device, s: Delivery.Setup)
    requires Fresh(d, s)
    ensures Newest(d, s, [])
  {
    var v := d.world.hist.events;
    assert forall i :: 0 <= i < |v| ==> Cores(v)[i].id == v[i].id;
  }

  lemma NewestAfterLive(d: Device, s: Delivery.Setup, steps: seq<Step>)
    requires Shape(d.world) && steps != [] && steps[|steps| - 1].Live? && NoWrap(d, s, steps)
    requires Newest(d, s, steps[..|steps| - 1])
    ensures Newest(d, s, steps)
  {
    var n := |steps| - 1;
    assert steps[n].step.LogEvent? ==> Run(d, s, steps[..n]).world.hist.latestId != U32_COUNT - 1;
    LiveRing(Run(d, s, steps[..n]).world, s, steps[n].step, Heritage(d, s, steps[..n]));
    hide Delivery.Apply, Logged, Cores, Last, HistoryRuns.Increasing;
  }

  lemma NewestAfterLoss(d: Device, s: Delivery.Setup, steps: seq<Step>)
    requires Shape(d.world) && d.backup == None && d.copy == None && steps != [] && steps[|steps| - 1].PowerLoss?
    requires var at := Restores(d, s, steps[..|steps| - 1]); at.Some? ==> Newest(d, s, steps[..at.value])
    ensures Newest(d, s, steps)
  {
    var n := |steps| - 1;
    var at := Restores(d, s, steps[..n]);
    LossRestores(d, s, steps[..n]);
    LossUnfold(d, s, steps);
    assert Run(d, s, steps).world.hist == ColdBoot(Run(d, s, steps[..n]).backup);
    hide Run, Heritage, Restores, ColdBoot, HistoryRuns.Increasing;
    if at.Some? {
      assert steps[..n][..at.value] == steps[..at.value];
    }
  }

  lemma NewestAfterRest(d: Device, s: Delivery.Setup, steps: seq<Step>)
    requires Shape(d.world) && steps != [] && !steps[|steps| - 1].Live? && !steps[|steps| - 1].PowerLoss?
    requires Newest(d, s, steps[..|steps| - 1])
    ensures Newest(d, s, steps)
  {
    hide Cores, Last, HistoryRuns.Increasing;
  }

  /** After any run with flushes, reboots and power losses the ring is exactly the newest events of the
      history it descends from, their ids increasing, none above the counter. */
  lemma {:induction false} RingIsNewestOfItsHistory(d: Device, s: Delivery.Setup, steps: seq<Step>)
    requires Fresh(d, s) && NoWrap(d, s, steps)
    ensures Newest(d, s, steps)
    decreases |steps|
  {
    assert Shape(d.world) && d.backup == None && d.copy == None;
    hide Run, Heritage, Newest, NoWrap, Fresh, Restores;
    if steps == [] {
      NewestAtFirst(d, s);
    } else {
      var n := |steps| - 1;
      NoWrapPrefix(d, s, steps, n);
      match steps[n] {
        case Live(l) =>
          RingIsNewestOfItsHistory(d, s, steps[..n]);
          NewestAfterLive(d, s, steps);
        case PowerLoss =>
          var at := Restores(d, s, steps[..n]);
          if at.Some? {
            NoWrapPrefix(d, s, steps, at.value);
            RingIsNewestOfItsHistory(d, s, steps[..at.value]);
          }
          NewestAfterLoss(d, s, steps);
        case _ =>
          RingIsNewestOfItsHistory(d, s, steps[..n]);
          NewestAfterRest(d, s, steps);
      }
    }
  }

  // ---------- acknowledged in its own history

  /** At step k an ACK arrived for the number of a slot that was waiting with a frame of event e. */
  predicate Acked(d: Device, s: Delivery.Setup, steps: seq<Step>, k: nat, i: nat, e: Event)
    requires Shape(d.world) && k < |steps|
  {
    && steps[k].Live? && steps[k].step.AckArrive?
    && var t := Run(d, s, steps[..k]).world.link.slots;
    && i < |t| && t[i].Holds(steps[k].step.seqNum) && Carries(t[i], e)
  }

  ghost predicate EverAcked(d: Device, s: Delivery.Setup, steps: seq<Step>, id: u32)
    requires Shape(d.world)
  {
    exists k: nat, i: nat, e :: k < |steps| && Remains(d, s, steps, k) && Acked(d, s, steps, k, i, e) && e.id == id
        && e.Core() in Heritage(d, s, steps)
  }

  /** What remains after some of the steps remains after all. */
  predicate Extends(d: Device, s: Delivery.Setup, steps: seq<Step>, n: nat)
    requires Shape(d.world) && n <= |steps|
  {
    && Heritage(d, s, steps[..n]) <= Heritage(d, s, steps)
    && forall k: nat :: k < n && Remains(d, s, steps[..n], k) ==> Remains(d, s, steps, k)
  }

  lemma EverGrows(d: Device, s: Delivery.Setup, steps: seq<Step>, n: nat, id: u32)
    requires Shape(d.world) && n <= |steps| && Extends(d, s, steps, n) && EverAcked(d, s, steps[..n], id)
    ensures EverAcked(d, s, steps, id)
  {
    hide Run, Heritage, Remains, Carries;
    var k: nat, i: nat, e :| k < n && Remains(d, s, steps[..n], k) && Acked(d, s, steps[..n], k, i, e) && e.id == id
        && e.Core() in Heritage(d, s, steps[..n]);
    assert steps[..n][..k] == steps[..k];
    assert Acked(d, s, steps, k, i, e);
  }

  /** The steps before the last one, or before the copy that a power loss goes back to. */
  lemma LastExtends(d: Device, s: Delivery.Setup, steps: seq<Step>)
    requires Shape(d.world) && steps != []
    ensures
      var n := |steps| - 1;
      if !steps[n].PowerLoss? then Extends(d, s, steps, n)
      else var at := Restores(d, s, steps[..n]); at.Some? ==> Extends(d, s, steps, at.value)
  {
    var n := |steps| - 1;
    if !steps[n].PowerLoss? {
      RestUnfold(d, s, steps);
      hide Remains, Heritage;
    } else {
      LossUnfold(d, s, steps);
      hide Remains, Heritage, Restores;
    }
  }

  lemma RestUnfold(d: Device, s: Delivery.Setup, steps: seq<Step>)
    requires Shape(d.world) && steps != [] && !steps[|steps| - 1].PowerLoss?
    ensures
      var n := |steps| - 1;
      && Heritage(d, s, steps[..n]) <= Heritage(d, s, steps)
      && forall k: nat :: Remains(d, s, steps, k) <==> k == n || Remains(d, s, steps[..n], k)
  {
    hide Run, Logged;
  }

  lemma LossUnfold(d: Device, s: Delivery.Setup, steps: seq<Step>)
    requires Shape(d.world) && steps != [] && steps[|steps| - 1].PowerLoss?
    ensures
      var at := Restores(d, s, steps[..|steps| - 1]);
      && Heritage(d, s, steps) == (if at.Some? then Heritage(d, s, steps[..at.value]) else [])
      && forall k: nat :: Remains(d, s, steps, k) <==> at.Some? && Remains(d, s, steps[..at.value], k)
  {
    hide Run, Restores;
  }

  /** Every flag and every mark in the gap was earned in the history that the ring descends from. */
  ghost predicate Earned(d: Device, s: Delivery.Setup, steps: seq<Step>)
    requires Shape(d.world)
  {
    var v := Run(d, s, steps).world;
    && Genuine(v, Heritage(d, s, steps))
    && (forall id :: InGap(v, id) ==> EverAcked(d, s, steps, id))
    && EarnedFlags(v.hist.events, d, s, steps)
  }

  ghost predicate EarnedFlags(events: seq<Event>, d: Device, s: Delivery.Setup, steps: seq<Step>)
    requires Shape(d.world)
  {
    forall e :: e in events && e.IsSynced() ==> EverAcked(d, s, steps, e.id) || SyncedIn(d.world.hist, e.Core())
  }

  lemma FlagsGrow(events: seq<Event>, d: Device, s: Delivery.Setup, steps: seq<Step>, n: nat)
    requires Shape(d.world) && n <= |steps| && Extends(d, s, steps, n) && EarnedFlags(events, d, s, steps[..n])
    ensures EarnedFlags(events, d, s, steps)
  {
    forall e | e in events && e.IsSynced()
      ensures EverAcked(d, s, steps, e.id) || SyncedIn(d.world.hist, e.Core())
    {
      if EverAcked(d, s, steps[..n], e.id) {
        hide EverAcked;
        EverGrows(d, s, steps, n, e.id);
      }
    }
  }

  /** After a boot nothing waits and nothing is in its gap. */
  lemma BootedIsGenuine(w: Delivery.World, ring: History, past: seq<EventCore>)
    requires Shape(w)
    ensures Genuine(Booted(w, ring), past) && forall id :: !InGap(Booted(w, ring), id)
  {
  }

  lemma LiveEarned(d: Device, s: Delivery.Setup, steps: seq<Step>)
    requires Fresh(d, s) && NoWrap(d, s, steps) && steps != [] && steps[|steps| - 1].Live?
    requires Earned(d, s, steps[..|steps| - 1])
    ensures Earned(d, s, steps)
  {
    var n := |steps| - 1;
    var init, l := steps[..n], steps[n].step;
    var v, u := Run(d, s, init).world, Run(d, s, steps).world;
    assert u == Delivery.Apply(v, s, l);
    LastExtends(d, s, steps);
    NoWrapPrefix(d, s, steps, n);
    RingIsNewestOfItsHistory(d, s, init);
    LiveGenuine(v, s, l, Heritage(d, s, init), Heritage(d, s, steps), s.capacity);
    hide Run, Heritage, Extends, NoWrap, Fresh, Delivery.Apply, Newest;
    forall id | InGap(u, id)
      ensures EverAcked(d, s, steps, id)
    {
      GapEarned(d, s, steps, v, id);
    }
    forall e | e in u.hist.events && e.IsSynced()
      ensures EverAcked(d, s, steps, e.id) || SyncedIn(d.world.hist, e.Core())
    {
      FlagEarned(d, s, steps, v, e);
    }
  }

  lemma LiveGenuine(v: Delivery.World, s: Delivery.Setup, l: Delivery.Step, past: seq<EventCore>, now: seq<EventCore>,
      capacity: nat)
    requires Shape(v) && Genuine(v, past) && Cores(v.hist.events) == Last(past, capacity) && past <= now
    ensures Genuine(Delivery.Apply(v, s, l), now)
  {
    forall e | e in v.hist.events
      ensures e.Core() in past
    {
      var i :| 0 <= i < |v.hist.events| && v.hist.events[i] == e;
      assert Cores(v.hist.events)[i] == e.Core();
    }
    hide Cores, Last, Genuine, Delivery.Apply;
    GenuineStep(v, s, l, past);
    GenuineGrows(Delivery.Apply(v, s, l), past, now);
  }

  lemma GapEarned(d: Device, s: Delivery.Setup, steps: seq<Step>, v: Delivery.World, id: u32)
    requires Shape(d.world) && steps != [] && steps[|steps| - 1].Live? && v == Run(d, s, steps[..|steps| - 1]).world
    requires Earned(d, s, steps[..|steps| - 1]) && Extends(d, s, steps, |steps| - 1)
    requires Remains(d, s, steps, |steps| - 1)
    requires InGap(Delivery.Apply(v, s, steps[|steps| - 1].step), id)
    ensures EverAcked(d, s, steps, id)
  {
    var n := |steps| - 1;
    var init, l := steps[..n], steps[n].step;
    KeptTask(v, s, l, id);
    hide Run, Remains, Heritage, Carries, Delivery.Apply;
    if InGap(v, id) {
      hide EverAcked;
      EverGrows(d, s, steps, n, id);
    } else {
      var i := FirstHolding(v.link.slots, l.seqNum);
      var e := LookedUp(v, Heritage(d, s, init), l.seqNum, i, id);
      assert Acked(d, s, steps, n, i, e);
    }
  }

  lemma FlagEarned(d: Device, s: Delivery.Setup, steps: seq<Step>, v: Delivery.World, e: Event)
    requires Shape(d.world) && steps != [] && steps[|steps| - 1].Live? && v == Run(d, s, steps[..|steps| - 1]).world
    requires Earned(d, s, steps[..|steps| - 1]) && Extends(d, s, steps, |steps| - 1)
    requires e in Delivery.Apply(v, s, steps[|steps| - 1].step).hist.events && e.IsSynced()
    ensures EverAcked(d, s, steps, e.id) || SyncedIn(d.world.hist, e.Core())
  {
    var n := |steps| - 1;
    SyncOrigin(v, s, steps[n].step, e);
    hide Run, Heritage, Extends, EverAcked, Delivery.Apply;
    if SyncedIn(v.hist, e.Core()) {
      var f :| f in v.hist.events && f.IsSynced() && f.Core() == e.Core();
      assert f.id == f.Core().id == e.id;
    }
    if EverAcked(d, s, steps[..n], e.id) {
      EverGrows(d, s, steps, n, e.id);
    }
  }

  lemma {:induction false} AlwaysEarned(d: Device, s: Delivery.Setup, steps: seq<Step>)
    requires Fresh(d, s) && NoWrap(d, s, steps)
    ensures Earned(d, s, steps)
    decreases |steps|
  {
    if steps == [] {
      FreshEarned(d, s);
    } else {
      var n := |steps| - 1;
      NoWrapPrefix(d, s, steps, n);
      AlwaysEarned(d, s, steps[..n]);
      match steps[n] {
        case Live(l) => LiveEarned(d, s, steps);
        case PowerLoss => LossEarned(d, s, steps);
        case _ => RestEarned(d, s, steps);
      }
    }
  }

  lemma FreshEarned(d: Device, s: Delivery.Setup)
    requires Fresh(d, s)
    ensures Earned(d, s, [])
  {
  }

  lemma RestEarned(d: Device, s: Delivery.Setup, steps: seq<Step>)
    requires Shape(d.world) && steps != [] && !steps[|steps| - 1].Live? && !steps[|steps| - 1].PowerLoss?
    requires Earned(d, s, steps[..|steps| - 1])
    ensures Earned(d, s, steps)
  {
    var n := |steps| - 1;
    var v := Run(d, s, steps[..n]).world;
    LastExtends(d, s, steps);
    FlagsGrow(v.hist.events, d, s, steps, n);
    hide EverAcked, EarnedFlags, Genuine;
    if steps[n].WarmBoot? {
      BootedIsGenuine(v, v.hist, Heritage(d, s, steps));
    } else {
      assert Run(d, s, steps).world == v;
      hide Extends;
      forall id | InGap(v, id)
        ensures EverAcked(d, s, steps, id)
      {
        EverGrows(d, s, steps, n, id);
      }
    }
  }

  lemma {:induction false} LossEarned(d: Device, s: Delivery.Setup, steps: seq<Step>)
    requires Fresh(d, s) && NoWrap(d, s, steps) && steps != [] && steps[|steps| - 1].PowerLoss?
    ensures Earned(d, s, steps)
    decreases |steps|, 0
  {
    var n := |steps| - 1;
    var init := steps[..n];
    var v := Run(d, s, init);
    var at := Restores(d, s, init);
    LossRestores(d, s, init);
    LastExtends(d, s, steps);
    BootedIsGenuine(v.world, ColdBoot(v.backup), Heritage(d, s, steps));
    if at.Some? {
      NoWrapPrefix(d, s, steps, at.value);
      assert init[..at.value] == steps[..at.value];
      AlwaysEarned(d, s, steps[..at.value]);
      hide EverAcked, Genuine;
      FlagsGrow(Run(d, s, steps[..at.value]).world.hist.events, d, s, steps, at.value);
    }
    hide EverAcked, Genuine;
  }

  /** The main result. If an event of the ring is flagged synced after any run with flushes, reboots and
      power losses, it was so at first, or an ACK arrived for a frame built from that very event, at a step
      of the history that the ring descends from: a flag that a backup brought back was earned before the
      backup was copied, and an ACK of a lost history counts for nothing, even if the ids are given anew. */
  lemma FlagsEarnedInTheirHistory(d: Device, s: Delivery.Setup, steps: seq<Step>, e: Event)
    returns (k: nat, i: nat, sent: Event)
    requires Fresh(d, s) && NoWrap(d, s, steps)
    requires e in Run(d, s, steps).world.hist.events && e.IsSynced() && !SyncedIn(d.world.hist, e.Core())
    ensures k < |steps| && Remains(d, s, steps, k) && Acked(d, s, steps, k, i, sent) && sent.Core() == e.Core()
  {
    AlwaysEarned(d, s, steps);
    RingIsNewestOfItsHistory(d, s, steps);
    var past, v := Heritage(d, s, steps), Run(d, s, steps).world.hist.events;
    var j :| 0 <= j < |v| && v[j] == e;
    assert Cores(v)[j] == e.Core();
    hide Run, Heritage, Remains, Acked, Fresh, NoWrap, Cores, Last, SyncedIn, Genuine;
    assert EverAcked(d, s, steps, e.id);
    k, i, sent :| k < |steps| && Remains(d, s, steps, k) && Acked(d, s, steps, k, i, sent) && sent.id == e.id
        && sent.Core() in past;
    SameIdSameCore(past, sent.Core(), e.Core());
  }

  // ---------- before the copy

  lemma {:induction false} RemainsInside(d: Device, s: Delivery.Setup, steps: seq<Step>, k: nat)
    requires Shape(d.world) && Remains(d, s, steps, k)
    ensures k < |steps|
    decreases |steps|
  {
    var n := |steps| - 1;
    if steps[n].PowerLoss? {
      RemainsInside(d, s, steps[..Restores(d, s, steps[..n]).value], k);
    } else if k != n {
      RemainsInside(d, s, steps[..n], k);
    }
  }

  predicate AllLive(steps: seq<Step>) {
    forall k :: 0 <= k < |steps| ==> steps[k].Live?
  }

  lemma {:induction false} LiveRemains(d: Device, s: Delivery.Setup, past: seq<Step>, live: seq<Step>, k: nat)
    requires Shape(d.world) && AllLive(live) && Remains(d, s, past + live, k)
    ensures k >= |past| || Remains(d, s, past, k)
  {
    if live == [] {
      assert past + live == past;
    } else {
      var n := |live| - 1;
      assert (past + live)[..|past + live| - 1] == past + live[..n];
      if k < |past| + n {
        LiveRemains(d, s, past, live[..n], k);
      }
    }
  }

  lemma {:induction false} CopyKept(past: seq<Step>, live: seq<Step>)
    requires AllLive(live)
    ensures CopiedAt(past + [FlushCopy] + live) == Some(|past|)
  {
    var all := past + [FlushCopy] + live;
    if live == [] {
      assert all == past + [FlushCopy];
    } else {
      CopyKept(past, live[..|live| - 1]);
      assert all[..|all| - 1] == past + [FlushCopy] + live[..|live| - 1];
    }
  }

  lemma {:induction false} BackupKept(past: seq<Step>, rest: seq<Step>)
    requires FlushWrite !in rest
    ensures BackedUpAt(past + rest) == BackedUpAt(past)
  {
    var all := past + rest;
    if rest == [] {
      assert all == past;
    } else {
      var n := |rest| - 1;
      assert rest[n] in rest;
      BackupKept(past, rest[..n]);
      assert all[..|all| - 1] == past + rest[..n];
    }
  }

  /** Copy, keep working, write, then anything but another write, lose power, keep working: what remains is
      what was done before the copy and what was done since the power came back. */
  lemma OnlyBeforeTheCopy(d: Device, s: Delivery.Setup, before: seq<Step>, during: seq<Step>, after: seq<Step>,
      since: seq<Step>, k: nat)
    requires Shape(d.world) && AllLive(during) && FlushWrite !in after && AllLive(since)
    requires var lost := before + [FlushCopy] + during + [FlushWrite] + after + [PowerLoss];
      Remains(d, s, lost + since, k)
    ensures k < |before| || k >= |before| + |during| + |after| + 3
  {
    var written := before + [FlushCopy] + during + [FlushWrite];
    var cycle := written + after;
    var lost := cycle + [PowerLoss];
    if k < |lost| {
      LiveRemains(d, s, lost, since, k);
      CopyKept(before, during);
      assert written[..|written| - 1] == before + [FlushCopy] + during;
      BackupKept(written, after);
      assert lost[..|lost| - 1] == cycle;
      assert BackedUpAt(cycle) == Some(|before|);
      assert lost[..|before|] == before;
      hide BackedUpAt, CopiedAt, Run;
      LossUnfold(d, s, lost);
      RemainsInside(d, s, before, k);
    }
  }

  /** So an event flagged synced after a power loss was acknowledged before the backup was copied, or since
      the power came back: never in between, whatever was acknowledged then. */
  lemma AcknowledgedBeforeTheCopy(d: Device, s: Delivery.Setup, before: seq<Step>, during: seq<Step>,
      after: seq<Step>, since: seq<Step>, e: Event) returns (k: nat, i: nat, sent: Event)
    requires AllLive(during) && FlushWrite !in after && AllLive(since)
    requires
      var steps := before + [FlushCopy] + during + [FlushWrite] + after + [PowerLoss] + since;
      && Fresh(d, s) && NoWrap(d, s, steps)
      && e in Run(d, s, steps).world.hist.events && e.IsSynced() && !SyncedIn(d.world.hist, e.Core())
    ensures k < |before| || k >= |before| + |during| + |after| + 3
    ensures
      var steps := before + [FlushCopy] + during + [FlushWrite] + after + [PowerLoss] + since;
      Shape(d.world) && k < |steps| && Acked(d, s, steps, k, i, sent) && sent.Core() == e.Core()
  {
    var steps := before + [FlushCopy] + during + [FlushWrite] + after + [PowerLoss] + since;
    assert Shape(d.world);
    hide Run, Acked, Remains, Fresh, NoWrap, SyncedIn;
    k, i, sent := FlagsEarnedInTheirHistory(d, s, steps, e);
    OnlyBeforeTheCopy(d, s, before, during, after, since, k);
  }
}
