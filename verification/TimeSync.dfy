/** Offline timestamps: what the backfill formula computes, against the documented one. */
module TimeSync {
  import opened Bytes
  import opened Events
  import opened History

  /** The documented epoch of an event: the phone's time less the event's age in whole seconds. */
  function Documented(epoch: int, uptime: int, eventMs: int): int {
    epoch - (uptime - eventMs) / 1000
  }

  /** For an event that is not in the future of the given uptime, the stamp is a real time no later
      than the phone's, and the documented one or exactly one second below it. */
  lemma StampAgainstDocumented(epoch: u32, uptime: u32, eventMs: u32)
    requires eventMs <= uptime && epoch > uptime / 1000
    ensures 0 < Stamp(epoch, uptime, eventMs) <= epoch
    ensures Stamp(epoch, uptime, eventMs)
         == Documented(epoch, uptime, eventMs) - if uptime % 1000 < eventMs % 1000 then 1 else 0
  {
    AgeInSeconds(uptime, eventMs);
    var stamp := epoch - uptime / 1000 + eventMs / 1000;
    assert eventMs / 1000 <= uptime / 1000;
    assert stamp % U32_COUNT == stamp;
  }

  lemma AgeInSeconds(u: nat, t: nat)
    requires t <= u
    ensures (u - t) / 1000 == u / 1000 - t / 1000 - if u % 1000 < t % 1000 then 1 else 0
  {
    var q, r := u / 1000 - t / 1000, u % 1000 - t % 1000;
    assert u - t == 1000 * q + r;
    if r < 0 {
      assert u - t == 1000 * (q - 1) + (r + 1000);
    }
  }

  /** Stamps never reorder events. */
  lemma StampMonotone(epoch: u32, uptime: u32, earlier: u32, later: u32)
    requires earlier <= later <= uptime && epoch > uptime / 1000
    ensures Stamp(epoch, uptime, earlier) <= Stamp(epoch, uptime, later)
  {
    StampAgainstDocumented(epoch, uptime, earlier);
    StampAgainstDocumented(epoch, uptime, later);
    AgeInSeconds(uptime, earlier);
    AgeInSeconds(uptime, later);
    assert earlier / 1000 <= later / 1000;
  }

  /** A backfilled event is left alone by every later sync exactly when its stamp is not zero. */
  lemma LaterSyncIdleIff(e: Event, bootCount: u32, epoch: u32, uptime: u32)
    requires NeedsStamp(e, bootCount)
    ensures var f := Backfill(e, bootCount, epoch, uptime);
      Stamp(epoch, uptime, e.timestampMs) != 0
      <==> forall epoch2: u32, uptime2: u32 :: Backfill(f, bootCount, epoch2, uptime2) == f
  {
    var f := Backfill(e, bootCount, epoch, uptime);
    if Stamp(epoch, uptime, e.timestampMs) == 0 {
      var epoch2: u32 := U32_COUNT - 2000;
      var g := Backfill(f, bootCount, epoch2 - e.timestampMs / 1000, 0);
      assert Stamp(epoch2 - e.timestampMs / 1000, 0, e.timestampMs) == epoch2;
      assert g != f;
    }
  }

  /** One sync settles a whole ring: repeating it, with any later time, changes nothing. */
  lemma SyncIsFinal(h: History, epoch: u32, uptime: u32, epoch2: u32, uptime2: u32)
    requires epoch > uptime / 1000
    requires forall e :: e in h.events && NeedsStamp(e, h.bootCount) ==> e.timestampMs <= uptime
    ensures var g := TimeSync(h, epoch, uptime); TimeSync(g, epoch2, uptime2) == g
  {
    var g := TimeSync(h, epoch, uptime);
    forall i | 0 <= i < |h.events|
      ensures Backfill(g.events[i], g.bootCount, epoch2, uptime2) == g.events[i]
    {
      var e := h.events[i];
      assert e in h.events;
      if NeedsStamp(e, h.bootCount) {
        StampAgainstDocumented(epoch, uptime, e.timestampMs);
      }
    }
    assert TimeSync(g, epoch2, uptime2).events == g.events;
  }

  // ---------- the uptime the firmware actually uses

  /** The uptime read back once the clock has been set to epoch: the clock itself, in milliseconds,
      kept to 32 bits. */
  function ReadBack(epoch: u32, milliseconds: u32): u32 {
    (epoch * 1000 + milliseconds % 1000) % U32_COUNT
  }

  /** What a successful clock set stamps on an event. */
  function StampAfterSet(epoch: u32, milliseconds: u32, eventMs: u32): u32 {
    Stamp(epoch, ReadBack(epoch, milliseconds), eventMs)
  }

  /** Setting the clock first replaces the uptime: the stamp of a past event is the documented one for
      the real uptime exactly when the seconds taken off the phone's time (those of the clock read back,
      but no more than the time itself) are the real uptime's, less a carry. */
  lemma StampAfterSetIff(epoch: u32, milliseconds: u32, uptime: u32, eventMs: u32)
    requires eventMs <= uptime
    ensures
      var read, carry := ReadBack(epoch, milliseconds) / 1000, if uptime % 1000 < eventMs % 1000 then 1 else 0;
      (StampAfterSet(epoch, milliseconds, eventMs) == Documented(epoch, uptime, eventMs))
      <==> ((if epoch >= read then read else epoch) == uptime / 1000 - carry)
  {
    AgeInSeconds(uptime, eventMs);
    var read := ReadBack(epoch, milliseconds) / 1000;
    var bootEpoch := if epoch >= read then epoch - read else 0;
    var sum := bootEpoch + eventMs / 1000;
    assert sum < 2 * U32_COUNT;
    assert sum % U32_COUNT == if sum < U32_COUNT then sum else sum - U32_COUNT;
  }

  /** It does not in ordinary use: an event of second 5 synced in second 10, in November 2023, is
      stamped forty days too early. */
  lemma StampAfterSetIsEarly()
    ensures StampAfterSet(1700000000, 0, 5000) == 1696512087
    ensures Documented(1700000000, 10000, 5000) == 1699999995
  {
    assert ReadBack(1700000000, 0) == 3487918080;
  }

  /** While the milliseconds of the time fit 32 bits, the clock read back is that time, with the fraction of a
      second it had before. */
  lemma ReadBackIs(epoch: u32, milliseconds: u32)
    requires epoch <= 4294966
    ensures ReadBack(epoch, milliseconds) == 1000 * epoch + milliseconds % 1000
  {
  }

  /** A phone whose clock is behind the device's uptime dates the boot at zero. */
  lemma StampFromZero(epoch: u32, uptime: u32, eventMs: u32)
    requires epoch < uptime / 1000
    ensures Stamp(epoch, uptime, eventMs) == eventMs / 1000
  {
  }
}
