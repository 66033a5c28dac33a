/** The ring across power cycles: what a backup brings back, and why an event is never stamped with
    another power cycle's clock. */
module PowerCycles {
  import opened Bytes
  import opened Events
  import opened History
  import HistoryRuns

  /** ring is RTC memory, backup is flash, copy is the storage worker's snapshot on its stack. */
  datatype Device = Device(ring: History, backup: Option<History>, copy: Option<History>)

  datatype Step =
    | Work(op: HistoryRuns.Op)
    | FlushCopy
    | FlushWrite
    | FlushFail
    | WarmBoot
    | PowerLoss

  function Apply(d: Device, capacity: nat, step: Step): Device {
    match step
    case Work(op) => d.(ring := HistoryRuns.Apply(d.ring, capacity, op))
    case FlushCopy => d.(copy := Some(d.ring))
    case FlushWrite => if d.copy.Some? then d.(backup := d.copy, copy := None) else d
    case FlushFail => d.(copy := None)
    case WarmBoot => d.(copy := None)
    case PowerLoss => Device(ColdBoot(d.backup), d.backup, None)
  }

  function Run(d: Device, capacity: nat, steps: seq<Step>): Device {
    if steps == [] then d else Apply(Run(d, capacity, steps[..|steps| - 1]), capacity, steps[|steps| - 1])
  }

  lemma {:induction false} RunConcat(d: Device, capacity: nat, a: seq<Step>, b: seq<Step>)
    ensures Run(d, capacity, a + b) == Run(Run(d, capacity, a), capacity, b)
  {
    if b == [] {
      assert a + b == a;
    } else {
      RunConcat(d, capacity, a, b[..|b| - 1]);
      assert (a + b)[..|a + b| - 1] == a + b[..|b| - 1];
    }
  }

  lemma RunSnoc(d: Device, capacity: nat, steps: seq<Step>, step: Step)
    ensures Run(d, capacity, steps + [step]) == Apply(Run(d, capacity, steps), capacity, step)
  {
    assert (steps + [step])[..|steps|] == steps;
    hide Apply;
  }

  lemma RunOne(d: Device, capacity: nat, step: Step)
    ensures Run(d, capacity, [step]) == Apply(d, capacity, step)
  {
    assert [step][..0] == [];
    hide Apply;
  }

  // ---------- a completed flush is what the next power loss brings back

  lemma {:induction false} BackupStays(d: Device, capacity: nat, steps: seq<Step>)
    requires FlushWrite !in steps
    ensures Run(d, capacity, steps).backup == d.backup
  {
    if steps != [] {
      BackupStays(d, capacity, steps[..|steps| - 1]);
      assert steps[|steps| - 1] in steps;
    }
  }

  lemma {:induction false} CopyStays(d: Device, capacity: nat, steps: seq<Step>)
    requires forall s :: s in steps ==> s.Work?
    ensures Run(d, capacity, steps).copy == d.copy
  {
    if steps != [] {
      CopyStays(d, capacity, steps[..|steps| - 1]);
      assert steps[|steps| - 1] in steps;
    }
  }

  /** Copy, keep working, write, then anything but another write, then lose power: the ring is the
      one that was copied, in a new boot. A ring whose count is a multiple of 256 is forgotten. */
  lemma PowerLossRestoresCopied(d: Device, capacity: nat, during: seq<Step>, after: seq<Step>)
    requires forall s :: s in during ==> s.Work?
    requires FlushWrite !in after
    ensures
      var g := Run(d, capacity, [FlushCopy] + during + [FlushWrite] + after + [PowerLoss]);
      g.ring == if |d.ring.events| % 0x100 != 0
                then d.ring.(bootCount := (d.ring.bootCount + 1) % U32_COUNT)
                else History([], 0, 1)
  {
    var a, b, c := [FlushCopy] + during, [FlushCopy] + during + [FlushWrite],
        [FlushCopy] + during + [FlushWrite] + after;
    RunOne(d, capacity, FlushCopy);
    RunSnoc(d, capacity, a, FlushWrite);
    RunSnoc(d, capacity, c, PowerLoss);
    hide Run;
    RunConcat(d, capacity, [FlushCopy], during);
    CopyStays(Apply(d, capacity, FlushCopy), capacity, during);
    RunConcat(d, capacity, b, after);
    BackupStays(Run(d, capacity, b), capacity, after);
  }

  /** The id counter survives that power loss exactly when the copied ring's count was not a multiple
      of 256 (or the counter was zero): fast-forwarded ids over an empty ring are handed out again. */
  lemma CounterSurvivesIff(d: Device, capacity: nat, during: seq<Step>, after: seq<Step>)
    requires forall s :: s in during ==> s.Work?
    requires FlushWrite !in after
    ensures
      var g := Run(d, capacity, [FlushCopy] + during + [FlushWrite] + after + [PowerLoss]);
      g.ring.latestId == d.ring.latestId <==> |d.ring.events| % 0x100 != 0 || d.ring.latestId == 0
  {
    PowerLossRestoresCopied(d, capacity, during, after);
  }

  // ---------- boot counts

  predicate Dated(h: History) {
    forall e :: e in h.events ==> e.bootCount <= h.bootCount
  }

  predicate AllDated(d: Device) {
    && Dated(d.ring)
    && (d.backup.Some? ==> Dated(d.backup.value))
    && (d.copy.Some? ==> Dated(d.copy.value))
  }

  /** No power loss of the run meets an exhausted boot counter. */
  predicate BootsLeft(d: Device, capacity: nat, steps: seq<Step>) {
    forall k :: 0 <= k < |steps| && steps[k].PowerLoss? ==>
      var g := Run(d, capacity, steps[..k]);
      g.backup.Some? ==> g.backup.value.bootCount != U32_COUNT - 1
  }

  /** Events never claim a later boot than the current one. */
  lemma {:induction false} EventsStayDated(d: Device, capacity: nat, steps: seq<Step>)
    requires AllDated(d) && BootsLeft(d, capacity, steps)
    ensures AllDated(Run(d, capacity, steps))
  {
    if steps != [] {
      var init, step := steps[..|steps| - 1], steps[|steps| - 1];
      BootsLeftInit(d, capacity, steps);
      EventsStayDated(d, capacity, init);
      var g := Run(d, capacity, init);
      match step {
        case Work(op) => WorkKeepsDated(g.ring, capacity, op);
        case PowerLoss =>
          assert steps[..|init|] == init;
          ColdBootDated(g.backup);
        case _ =>
      }
    }
  }

  /** Just after a power loss every stored event belongs to an earlier boot. */
  lemma ColdBootDated(backup: Option<History>)
    requires backup.Some? ==> Dated(backup.value) && backup.value.bootCount != U32_COUNT - 1
    ensures Dated(ColdBoot(backup))
    ensures forall e :: e in ColdBoot(backup).events ==> e.bootCount < ColdBoot(backup).bootCount
  {
  }

  lemma WorkKeepsDated(h: History, capacity: nat, op: HistoryRuns.Op)
    requires Dated(h)
    ensures Dated(HistoryRuns.Apply(h, capacity, op))
  {
    var g := HistoryRuns.Apply(h, capacity, op);
    forall e | e in g.events
      ensures e.bootCount <= g.bootCount
    {
      var i :| 0 <= i < |g.events| && g.events[i] == e;
      WorkOrigin(h, capacity, op, i);
    }
  }

  /** Every event after a step was there before with the same core, or was logged by it; one of an
      earlier boot keeps its timestamp too. */
  lemma WorkOrigin(h: History, capacity: nat, op: HistoryRuns.Op, i: nat)
    requires i < |HistoryRuns.Apply(h, capacity, op).events|
    ensures var g := HistoryRuns.Apply(h, capacity, op);
      && g.bootCount == h.bootCount
      && var e := g.events[i];
      || e.bootCount == h.bootCount
      || (exists f :: f in h.events && f.Core() == e.Core() && f.timestamp == e.timestamp)
  {
    var g := HistoryRuns.Apply(h, capacity, op);
    match op {
      case DoLog(durationMs, uptime, epoch) =>
        var all := h.events + [NewEvent(h, capacity, durationMs, uptime, epoch)];
        assert g.events[i] == all[|all| - |g.events| + i];
        assert g.events[i] in all;
      case DoMark(id) => MarkFirstKeeps(h.events, id, i);
      case DoMarkAll(ids) => MarkAllKeeps(h.events, ids, i);
      case DoFastForward(id) =>
      case DoTimeSync(epoch, uptime) =>
        assert g.events[i] == Backfill(h.events[i], h.bootCount, epoch, uptime);
        assert h.events[i] in h.events;
    }
  }

  lemma MarkFirstKeeps(v: seq<Event>, id: u32, i: nat)
    requires i < |v|
    ensures MarkFirst(v, id)[i].Core() == v[i].Core() && MarkFirst(v, id)[i].timestamp == v[i].timestamp
    ensures v[i] in v
  {
    SyncKeepsCore(v[i]);
  }

  lemma {:induction false} MarkAllKeeps(v: seq<Event>, ids: seq<u32>, i: nat)
    requires i < |v|
    ensures MarkAll(v, ids)[i].Core() == v[i].Core() && MarkAll(v, ids)[i].timestamp == v[i].timestamp
    ensures v[i] in v
  {
    if ids != [] {
      MarkAllKeeps(v, ids[..|ids| - 1], i);
      MarkFirstKeeps(MarkAll(v, ids[..|ids| - 1]), ids[|ids| - 1], i);
    }
  }

  /** The ring at the start of the current power cycle. */
  function Booted(d: Device, capacity: nat, steps: seq<Step>): History {
    if steps == [] then d.ring
    else if steps[|steps| - 1].PowerLoss? then Run(d, capacity, steps).ring
    else Booted(d, capacity, steps[..|steps| - 1])
  }

  /** e is an event of h as it was then, synced or not since. */
  ghost predicate Remembered(e: Event, h: History) {
    exists f :: f in h.events && f.Core() == e.Core() && f.timestamp == e.timestamp
  }

  /** In every run of work, flushes, warm boots and power losses: the current boot is that of the last
      power loss, everything that one brought back is of an earlier boot, and every stored event of
      another boot still has the timestamp it had then. */
  lemma {:induction false} EarlierBootsNeverStamped(d: Device, capacity: nat, steps: seq<Step>)
    requires AllDated(d) && BootsLeft(d, capacity, steps)
    ensures
      var ring, start := Run(d, capacity, steps).ring, Booted(d, capacity, steps);
      && ring.bootCount == start.bootCount
      && (PowerLoss in steps ==> forall f :: f in start.events ==> f.bootCount < start.bootCount)
      && forall e :: e in ring.events && e.bootCount != ring.bootCount ==> Remembered(e, start)
  {
    if steps == [] {
      forall e | e in d.ring.events
        ensures Remembered(e, d.ring)
      {
        assert e.Core() == e.Core();
      }
    } else {
      var init, step := steps[..|steps| - 1], steps[|steps| - 1];
      BootsLeftInit(d, capacity, steps);
      var g := Run(d, capacity, init);
      if step.PowerLoss? {
        assert steps[..|init|] == init;
        EventsStayDated(d, capacity, init);
        ColdBootDated(g.backup);
        forall e | e in ColdBoot(g.backup).events
          ensures Remembered(e, ColdBoot(g.backup))
        {
          assert e.Core() == e.Core();
        }
      } else {
        EarlierBootsNeverStamped(d, capacity, init);
        assert steps == init + [step];
        if step.Work? {
          WorkRemembers(g.ring, capacity, step.op, Booted(d, capacity, init));
        }
      }
    }
  }

  lemma BootsLeftInit(d: Device, capacity: nat, steps: seq<Step>)
    requires steps != [] && BootsLeft(d, capacity, steps)
    ensures BootsLeft(d, capacity, steps[..|steps| - 1])
  {
    var init := steps[..|steps| - 1];
    forall k | 0 <= k < |init| && init[k].PowerLoss?
      ensures var g := Run(d, capacity, init[..k]); g.backup.Some? ==> g.backup.value.bootCount != U32_COUNT - 1
    {
      assert init[..k] == steps[..k];
    }
  }

  lemma WorkRemembers(h: History, capacity: nat, op: HistoryRuns.Op, start: History)
    requires forall e :: e in h.events && e.bootCount != h.bootCount ==> Remembered(e, start)
    ensures
      var g := HistoryRuns.Apply(h, capacity, op);
      g.bootCount == h.bootCount && forall e :: e in g.events && e.bootCount != g.bootCount ==> Remembered(e, start)
  {
    var g := HistoryRuns.Apply(h, capacity, op);
    WorkKeepsBoot(h, capacity, op);
    forall e | e in g.events && e.bootCount != g.bootCount
      ensures Remembered(e, start)
    {
      var i :| 0 <= i < |g.events| && g.events[i] == e;
      WorkOrigin(h, capacity, op, i);
      var f :| f in h.events && f.Core() == e.Core() && f.timestamp == e.timestamp;
      assert f.Core().bootCount == e.Core().bootCount;
      assert Remembered(f, start);
    }
  }

  lemma WorkKeepsBoot(h: History, capacity: nat, op: HistoryRuns.Op)
    ensures HistoryRuns.Apply(h, capacity, op).bootCount == h.bootCount
  {
  }
}
