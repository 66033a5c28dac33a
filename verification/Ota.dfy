/** Firmware over BLE, as what the two sides could agree on: which chunks were taken, and what is in
    flash. The manager itself only keeps counts and a running CRC (module OtaManagers). */
module Ota {
  import opened Bytes
  import opened Events
  import opened FlashDevices
  import Crc32

  datatype Phase = Idle | Receiving | Validating | Committing | Rebooting | Failed

  /** accepted holds the chunks taken so far, in order; flash what the device has written. */
  datatype Transfer = Transfer(phase: Phase, size: u32, crc: bv32, accepted: seq<seq<byte>>, flash: seq<byte>)

  function Flat(chunks: seq<seq<byte>>): seq<byte> {
    if chunks == [] then [] else Flat(chunks[..|chunks| - 1]) + chunks[|chunks| - 1]
  }

  // ---------- messages

  datatype Version = Version(major: byte, minor: byte, patch: byte)

  function Packed(v: Version): u32 {
    v.major * 0x1_0000 + v.minor * 0x100 + v.patch
  }

  datatype Announcement = Announcement(totalSize: u32, expectedCrc: bv32, version: Version)

  /** What the surroundings say to a start: battery, partition size if there is one, device ready. */
  datatype StartEnv = StartEnv(batteryOk: bool, current: Version, partition: Option<nat>, beginOk: bool)

  /** limit and endOk are what the flash device does; timedOut is the chunk timer. */
  datatype Msg =
    | Start(announcement: Option<Announcement>, env: StartEnv)
    | Chunk(index: u16, data: seq<byte>, limit: nat)
    | Commit(endOk: bool)
    | Abort
    | Tick(timedOut: bool)

  predicate StartAllowed(a: Announcement, env: StartEnv) {
    && env.batteryOk
    && Packed(a.version) >= Packed(env.current)
    && env.partition.Some? && a.totalSize <= env.partition.value
    && env.beginOk
  }

  function AfterStart(t: Transfer, announcement: Option<Announcement>, env: StartEnv): Transfer {
    if t.phase != Idle || announcement.None? then t
    else
      var a := announcement.value;
      if StartAllowed(a, env) then Transfer(Receiving, a.totalSize, a.expectedCrc, [], [])
      else t.(size := a.totalSize, crc := a.expectedCrc)
  }

  /** The 16-bit index of the n-th chunk, counting from zero. */
  function IndexOf(n: nat): u16 {
    n % U16_COUNT
  }

  lemma NextIndex(n: nat)
    ensures (IndexOf(n) + 1) % U16_COUNT == IndexOf(n + 1)
  {
  }

  predicate Awaits(t: Transfer, index: u16) {
    t.phase == Receiving && index == IndexOf(|t.accepted|) && |t.flash| <= t.size
  }

  function AfterChunk(t: Transfer, index: u16, data: seq<byte>, limit: nat): Transfer {
    if !Awaits(t, index) then t
    else
      var n := Taken(t.size, |t.flash|, |data|, limit);
      t.(flash := t.flash + data[..n], accepted := if n == |data| then t.accepted + [data] else t.accepted)
  }

  predicate Passes(t: Transfer) {
    |Flat(t.accepted)| == t.size && Crc32.Checksum(Flat(t.accepted)) == t.crc
  }

  function AfterCommit(t: Transfer, endOk: bool): Transfer {
    if t.phase != Receiving then t
    else if !Passes(t) then t.(phase := Failed, flash := [])
    else if !endOk then t.(phase := Failed)
    else t.(phase := Rebooting)
  }

  function AfterAbort(t: Transfer): Transfer {
    if t.phase == Idle then t else t.(phase := Idle, accepted := [], flash := [])
  }

  function Apply(t: Transfer, m: Msg): Transfer {
    match m
    case Start(announcement, env) => AfterStart(t, announcement, env)
    case Chunk(index, data, limit) => AfterChunk(t, index, data, limit)
    case Commit(endOk) => AfterCommit(t, endOk)
    case Abort => AfterAbort(t)
    case Tick(timedOut) => if t.phase == Receiving && timedOut then AfterAbort(t) else t
  }

  function Run(t: Transfer, msgs: seq<Msg>): Transfer {
    if msgs == [] then t else Apply(Run(t, msgs[..|msgs| - 1]), msgs[|msgs| - 1])
  }

  const NEW := Transfer(Idle, 0, 0, [], [])

  // ---------- what is in flash

  /** While a transfer lasts, flash never outgrows the announced size, holds at least the taken
      chunks, and as soon as it is no longer than they are, it is exactly them. */
  predicate Sound(t: Transfer) {
    (t.phase == Receiving || t.phase == Rebooting) ==>
      && |Flat(t.accepted)| <= |t.flash| <= t.size
      && (|t.flash| == |Flat(t.accepted)| ==> t.flash == Flat(t.accepted))
  }

  lemma FlatSnoc(chunks: seq<seq<byte>>, c: seq<byte>)
    ensures Flat(chunks + [c]) == Flat(chunks) + c
  {
    assert (chunks + [c])[..|chunks|] == chunks;
  }

  lemma ApplySound(t: Transfer, m: Msg)
    requires Sound(t)
    ensures Sound(Apply(t, m))
  {
    if m.Chunk? {
      FlatSnoc(t.accepted, m.data);
    }
  }

  lemma {:induction false} RunSound(t: Transfer, msgs: seq<Msg>)
    requires Sound(t)
    ensures Sound(Run(t, msgs))
  {
    if msgs != [] {
      RunSound(t, msgs[..|msgs| - 1]);
      ApplySound(Run(t, msgs[..|msgs| - 1]), msgs[|msgs| - 1]);
    }
  }

  // ---------- which chunks were taken

  /** Every chunk message of the stream with index i carries c(i). */
  predicate Carries(msgs: seq<Msg>, c: u16 -> seq<byte>) {
    forall k :: 0 <= k < |msgs| && msgs[k].Chunk? ==> msgs[k].data == c(msgs[k].index)
  }

  predicate InOrder(accepted: seq<seq<byte>>, c: u16 -> seq<byte>) {
    forall j :: 0 <= j < |accepted| ==> accepted[j] == c(IndexOf(j))
  }

  /** However chunks are lost, repeated or reordered, the j-th chunk taken is the j-th of the image. */
  lemma {:induction false} TakenInOrder(t: Transfer, msgs: seq<Msg>, c: u16 -> seq<byte>)
    requires InOrder(t.accepted, c) && Carries(msgs, c)
    ensures InOrder(Run(t, msgs).accepted, c)
  {
    if msgs != [] {
      var init, m := msgs[..|msgs| - 1], msgs[|msgs| - 1];
      assert Carries(init, c) by {
        assert forall k :: 0 <= k < |init| ==> init[k] == msgs[k];
      }
      TakenInOrder(t, init, c);
      assert m.Chunk? ==> m.data == c(m.index);
    }
  }

  /** The image as its first n chunks. */
  function Image(c: u16 -> seq<byte>, n: nat): (s: seq<seq<byte>>)
    ensures |s| == n && InOrder(s, c)
  {
    seq(n, j requires 0 <= j => c(IndexOf(j)))
  }

  /** The main result: whatever the stream and however the flash fails, the device reboots into a new
      image only if flash holds exactly the first chunks of the image, of the announced size and CRC. */
  lemma RebootsIntoTheImage(msgs: seq<Msg>, c: u16 -> seq<byte>)
    requires Carries(msgs, c)
    ensures
      var t := Run(NEW, msgs);
      t.phase == Rebooting ==>
        && t.flash == Flat(Image(c, |t.accepted|))
        && |t.flash| == t.size && Crc32.Checksum(t.flash) == t.crc
  {
    RunSound(NEW, msgs);
    TakenInOrder(NEW, msgs, c);
    var t := Run(NEW, msgs);
    assert t.accepted == Image(c, |t.accepted|);
    PassedWhenRebooting(NEW, msgs);
  }

  lemma {:induction false} PassedWhenRebooting(t: Transfer, msgs: seq<Msg>)
    requires t.phase != Rebooting
    ensures Run(t, msgs).phase == Rebooting ==> Passes(Run(t, msgs))
  {
    if msgs != [] {
      PassedWhenRebooting(t, msgs[..|msgs| - 1]);
    }
  }

  /** While receiving, flash is the taken chunks exactly when no write of this transfer has left
      bytes of a chunk it did not complete. */
  lemma {:induction false} FlashIsTakenIff(msgs: seq<Msg>)
    ensures
      var t := Run(NEW, msgs);
      t.phase == Receiving ==> (t.flash == Flat(t.accepted) <==> Leftover(NEW, msgs) == 0)
  {
    RunSound(NEW, msgs);
    LeftoverIs(msgs);
  }

  /** Bytes of a chunk that one write leaves without completing it. */
  function Stray(t: Transfer, index: u16, data: seq<byte>, limit: nat): nat {
    if Awaits(t, index) && Taken(t.size, |t.flash|, |data|, limit) < |data|
        then Taken(t.size, |t.flash|, |data|, limit) else 0
  }

  /** Bytes that short writes have left in flash since the transfer started. */
  function Leftover(t: Transfer, msgs: seq<Msg>): nat {
    if msgs == [] then 0 else
      var init, m := msgs[..|msgs| - 1], msgs[|msgs| - 1];
      var v := Run(t, init);
      match m
      case Start(_, _) => if v.phase == Idle then 0 else Leftover(t, init)
      case Chunk(index, data, limit) =>
        Leftover(t, init) + Stray(v, index, data, limit)
      case _ => Leftover(t, init)
  }

  lemma {:induction false} LeftoverIs(msgs: seq<Msg>)
    ensures var t := Run(NEW, msgs);
      t.phase == Receiving ==> |t.flash| == |Flat(t.accepted)| + Leftover(NEW, msgs)
  {
    if msgs != [] {
      var init, m := msgs[..|msgs| - 1], msgs[|msgs| - 1];
      LeftoverIs(init);
      if m.Chunk? {
        StrayIs(Run(NEW, init), m.index, m.data, m.limit);
      }
      hide Flat, Stray, AfterChunk, Passes;
    }
  }

  lemma StrayIs(t: Transfer, index: u16, data: seq<byte>, limit: nat)
    ensures var v := AfterChunk(t, index, data, limit);
      v.phase == t.phase && |v.flash| - |t.flash|
          == |Flat(v.accepted)| - |Flat(t.accepted)| + Stray(t, index, data, limit)
  {
    FlatSnoc(t.accepted, data);
    hide Flat, IndexOf;
  }

  /** Once a short write has left bytes behind, no commit of this transfer can pass. */
  lemma ShortWriteDooms(msgs: seq<Msg>, endOk: bool)
    requires Run(NEW, msgs).phase == Receiving && Leftover(NEW, msgs) > 0
    ensures AfterCommit(Run(NEW, msgs), endOk).phase == Failed
  {
    RunSound(NEW, msgs);
    LeftoverIs(msgs);
  }

  // ---------- enough chunks arrive

  /** A chunk message met by a flash that takes whole chunks as long as there is room. */
  predicate Whole(m: Msg) {
    m.Chunk? && m.limit >= |m.data|
  }

  predicate OnlyWholeChunks(msgs: seq<Msg>) {
    forall k :: 0 <= k < |msgs| ==> Whole(msgs[k])
  }

  /** at[j] is a place in the stream where chunk j arrives, after chunk j - 1 did. */
  predicate ArriveInTurn(msgs: seq<Msg>, at: seq<nat>) {
    && |at| <= U16_COUNT
    && (forall j :: 0 <= j < |at| ==> at[j] < |msgs| && msgs[at[j]].Chunk? && msgs[at[j]].index == j)
    && forall i, j :: 0 <= i < j < |at| ==> at[i] < at[j]
  }

  predicate Started(t: Transfer) {
    t.phase == Receiving && t.accepted == [] && t.flash == []
  }

  /** Up to the n-th chunk nothing is left over, and nothing ends the transfer. */
  predicate OnTrack(t: Transfer, v: Transfer, n: nat) {
    && v.phase == Receiving && v.size == t.size && v.crc == t.crc && |v.flash| <= v.size
    && (|v.accepted| < n ==> v.flash == Flat(v.accepted))
  }

  lemma {:induction false} StaysOnTrack(t: Transfer, msgs: seq<Msg>, c: u16 -> seq<byte>, n: nat)
    requires Started(t) && OnlyWholeChunks(msgs) && Carries(msgs, c)
    requires |Flat(Image(c, n))| <= t.size
    ensures OnTrack(t, Run(t, msgs), n)
  {
    if msgs != [] {
      var init, m := msgs[..|msgs| - 1], msgs[|msgs| - 1];
      StaysOnTrack(t, init, c, n);
      TakenInOrder(t, init, c);
      TrackStep(t, Run(t, init), m, c, n);
    }
  }

  lemma TrackStep(t: Transfer, v: Transfer, m: Msg, c: u16 -> seq<byte>, n: nat)
    requires OnTrack(t, v, n) && InOrder(v.accepted, c) && Whole(m) && m.data == c(m.index)
    requires |Flat(Image(c, n))| <= t.size
    ensures OnTrack(t, Apply(v, m), n)
    ensures |v.accepted| < n && m.index == IndexOf(|v.accepted|) ==> |Apply(v, m).accepted| == |v.accepted| + 1
    ensures |v.accepted| <= |Apply(v, m).accepted|
  {
    var j := |v.accepted|;
    if j < n && m.index == IndexOf(j) {
      assert v.accepted == Image(c, j);
      ImageFits(c, j, n);
      FlatSnoc(v.accepted, m.data);
    }
  }

  lemma ImageSnoc(c: u16 -> seq<byte>, n: nat)
    requires n > 0
    ensures Flat(Image(c, n)) == Flat(Image(c, n - 1)) + c(IndexOf(n - 1))
  {
    assert Image(c, n) == Image(c, n - 1) + [c(IndexOf(n - 1))];
    FlatSnoc(Image(c, n - 1), c(IndexOf(n - 1)));
  }

  lemma {:induction false} ImageFits(c: u16 -> seq<byte>, j: nat, n: nat)
    requires j < n
    ensures |Flat(Image(c, j))| + |c(IndexOf(j))| <= |Flat(Image(c, n))|
    decreases n
  {
    hide Flat, Image;
    ImageSnoc(c, n);
    if j < n - 1 {
      ImageFits(c, j, n - 1);
    }
  }

  lemma {:induction false} ImagePrefix(c: u16 -> seq<byte>, j: nat, n: nat)
    requires j <= n
    ensures Flat(Image(c, j)) <= Flat(Image(c, n))
    decreases n
  {
    hide Flat, Image;
    if j < n {
      ImageSnoc(c, n);
      ImagePrefix(c, j, n - 1);
    }
  }

  lemma {:induction false} NeverShrinks(t: Transfer, msgs: seq<Msg>, k: nat)
    requires OnlyWholeChunks(msgs) && k <= |msgs|
    ensures |Run(t, msgs[..k]).accepted| <= |Run(t, msgs).accepted|
  {
    if k == |msgs| {
      assert msgs[..k] == msgs;
    } else {
      var init, m := msgs[..|msgs| - 1], msgs[|msgs| - 1];
      assert init[..k] == msgs[..k];
      NeverShrinks(t, init, k);
      assert Whole(m);
    }
  }

  /** By the place where chunk j arrives in turn, more than j chunks are taken. */
  lemma {:induction false} ArrivedBy(t: Transfer, msgs: seq<Msg>, c: u16 -> seq<byte>, at: seq<nat>, j: nat)
    requires Started(t) && OnlyWholeChunks(msgs) && Carries(msgs, c) && ArriveInTurn(msgs, at) && j < |at|
    requires |Flat(Image(c, |at|))| <= t.size
    ensures |Run(t, msgs[..at[j] + 1]).accepted| > j
    decreases j
  {
    var k := at[j];
    if j > 0 {
      ArrivedBy(t, msgs, c, at, j - 1);
      assert msgs[..k][..at[j - 1] + 1] == msgs[..at[j - 1] + 1];
      NeverShrinks(t, msgs[..k], at[j - 1] + 1);
    }
    OneMore(t, msgs, c, |at|, k);
  }

  lemma PrefixKeeps(msgs: seq<Msg>, c: u16 -> seq<byte>, k: nat)
    requires OnlyWholeChunks(msgs) && Carries(msgs, c) && k <= |msgs|
    ensures OnlyWholeChunks(msgs[..k]) && Carries(msgs[..k], c)
  {
    assert forall i :: 0 <= i < k ==> msgs[..k][i] == msgs[i];
  }

  /** Chunk j, arriving when j chunks or more are taken, leaves more than j taken. */
  lemma OneMore(t: Transfer, msgs: seq<Msg>, c: u16 -> seq<byte>, n: nat, k: nat)
    requires Started(t) && OnlyWholeChunks(msgs) && Carries(msgs, c)
    requires k < |msgs| && msgs[k].Chunk? && msgs[k].index < n && |Flat(Image(c, n))| <= t.size
    requires |Run(t, msgs[..k]).accepted| >= msgs[k].index
    ensures |Run(t, msgs[..k + 1]).accepted| > msgs[k].index
  {
    var before, upTo := msgs[..k], msgs[..k + 1];
    PrefixKeeps(msgs, c, k);
    StaysOnTrack(t, before, c, n);
    StartsInOrder(t, c);
    TakenInOrder(t, before, c);
    ChunkIsNext(t, Run(t, before), msgs[k], c, n);
    hide Flat, Image, InOrder, OnTrack, Apply, OnlyWholeChunks, Carries, Whole, Started;
    assert upTo[..k] == before;
  }

  lemma ChunkIsNext(t: Transfer, v: Transfer, m: Msg, c: u16 -> seq<byte>, n: nat)
    requires OnTrack(t, v, n) && InOrder(v.accepted, c) && Whole(m) && m.data == c(m.index)
    requires m.index < n && |Flat(Image(c, n))| <= t.size && |v.accepted| >= m.index
    ensures |Apply(v, m).accepted| > m.index
  {
    TrackStep(t, v, m, c, n);
  }

  lemma StartsInOrder(t: Transfer, c: u16 -> seq<byte>)
    requires Started(t)
    ensures InOrder(t.accepted, c)
  {
  }

  lemma AllArrive(t: Transfer, msgs: seq<Msg>, c: u16 -> seq<byte>, at: seq<nat>)
    requires Started(t) && OnlyWholeChunks(msgs) && Carries(msgs, c) && ArriveInTurn(msgs, at)
    requires |Flat(Image(c, |at|))| <= t.size
    ensures |Run(t, msgs).accepted| >= |at|
  {
    if at != [] {
      ArrivedBy(t, msgs, c, at, |at| - 1);
      NeverShrinks(t, msgs, at[|at| - 1] + 1);
    }
  }

  /** If the stream holds the chunks of the image in turn, whatever lies in between, and size and CRC
      were announced truly, the commit that follows succeeds. */
  lemma InTurnSucceeds(t: Transfer, msgs: seq<Msg>, c: u16 -> seq<byte>, at: seq<nat>)
    requires Started(t) && OnlyWholeChunks(msgs) && Carries(msgs, c) && ArriveInTurn(msgs, at)
    requires t.size == |Flat(Image(c, |at|))| && t.crc == Crc32.Checksum(Flat(Image(c, |at|)))
    ensures AfterCommit(Run(t, msgs), true).phase == Rebooting
  {
    var v, n := Run(t, msgs), |at|;
    AllArrive(t, msgs, c, at);
    StaysOnTrack(t, msgs, c, n);
    RunSound(t, msgs);
    TakenInOrder(t, msgs, c);
    assert v.accepted == Image(c, |v.accepted|);
    ImagePrefix(c, n, |v.accepted|);
    assert Flat(v.accepted) == Flat(Image(c, n));
  }

  // ---------- versions

  /** Comparing packed versions compares them in order: major first, then minor, then patch. */
  lemma PackedOrder(a: Version, b: Version)
    ensures Packed(a) < Packed(b) <==>
              a.major < b.major || (a.major == b.major
                  && (a.minor < b.minor || (a.minor == b.minor && a.patch < b.patch)))
  {
  }

  // ---------- starting, and starting over

  predicate Older(a: Version, b: Version) {
    a.major < b.major || (a.major == b.major
        && (a.minor < b.minor || (a.minor == b.minor && a.patch < b.patch)))
  }

  /** A start opens an empty transfer of the announced size and CRC exactly if none is under way, the battery
      allows it, the version is not older than the running one, the image fits the partition and the device opens
      it; otherwise nothing is taken and flash stays as it is. */
  lemma StartsIff(t: Transfer, a: Option<Announcement>, env: StartEnv)
    ensures
      var v := Apply(t, Start(a, env));
      if t.phase == Idle && a.Some? && env.batteryOk && !Older(a.value.version, env.current)
         && env.partition.Some? && a.value.totalSize <= env.partition.value && env.beginOk
      then v == Transfer(Receiving, a.value.totalSize, a.value.expectedCrc, [], [])
      else v.phase == t.phase && v.accepted == t.accepted && v.flash == t.flash
  {
    if a.Some? {
      PackedOrder(a.value.version, env.current);
    }
    hide Packed;
  }

  /** A transfer that times out is over and its flash is given up: the same start as from power-on opens the
      next one. One that has not timed out goes on as it was. */
  lemma TimedOutStartsOver(t: Transfer, a: Announcement, env: StartEnv)
    requires t.phase == Receiving
    ensures Apply(t, Tick(false)) == t
    ensures Apply(t, Tick(true)).phase == Idle && Apply(t, Tick(true)).flash == []
    ensures
      var v := Apply(Apply(t, Tick(true)), Start(Some(a), env));
      v.phase == Receiving <==> Apply(NEW, Start(Some(a), env)).phase == Receiving
    ensures
      var v := Apply(Apply(t, Tick(true)), Start(Some(a), env));
      v.phase == Receiving ==> v == Apply(NEW, Start(Some(a), env))
  {
    hide Packed;
  }

  /** After a commit that failed only an abort lets a new start in, and so does one at any other time. */
  lemma AbortStartsOver(t: Transfer, a: Announcement, env: StartEnv)
    ensures t.phase == Failed ==> Apply(t, Start(Some(a), env)) == t
    ensures StartAllowed(a, env) ==>
              Apply(Apply(t, Abort), Start(Some(a), env)) == Transfer(Receiving, a.totalSize, a.expectedCrc, [], [])
  {
    hide Packed;
  }

  /** A commit reboots into a transfer exactly if one is under way, the accepted chunks have the announced size and
      CRC, and the device closes it; what fails the comparison is given up, and so is the transfer either way. */
  lemma CommitIff(t: Transfer, endOk: bool)
    ensures
      var v, image := Apply(t, Commit(endOk)), Flat(t.accepted);
      if t.phase != Receiving then v == t
      else if |image| != t.size || Crc32.Checksum(image) != t.crc then v.phase == Failed && v.flash == []
      else if !endOk then v.phase == Failed
      else v == t.(phase := Rebooting)
  {
    hide Crc32.Checksum, Flat;
  }
}
