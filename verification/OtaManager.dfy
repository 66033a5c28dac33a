/** The OTA manager: it counts chunks and bytes and folds a running CRC. Every handler is specified by
    what it does to the transfer these counts stand for (module Ota). */
module OtaManagers {
  import opened Bytes
  import opened Events
  import opened FlashDevices
  import opened Ota
  import Crc32

  datatype OTAError =
    | NoError | LowBattery | NoPartition | TooLarge | BeginFailed | WriteFailed | SizeMismatch | CrcMismatch
    | CommitFailed | TimedOut | InvalidState | ChunkOutOfOrder | VersionRejected

  /** What a handler sends back. */
  datatype Reply = ChunkAck(index: u16, ok: bool) | Status(ok: bool, error: OTAError, receivedChunks: u16)

  /** The first check of a start that fails. */
  function FirstRefusal(state: Phase, announcement: Option<Announcement>, env: StartEnv): OTAError {
    if state != Idle || announcement.None? then InvalidState
    else if !env.batteryOk then LowBattery
    else if Packed(announcement.value.version) < Packed(env.current) then VersionRejected
    else if env.partition.None? then NoPartition
    else if announcement.value.totalSize > env.partition.value then TooLarge
    else BeginFailed
  }

  class OTAManager {
    const flash: FlashDevice
    const chunkTimeoutMs: u32
    var state: Phase
    var lastError: OTAError
    var expectedSize: u32
    var receivedSize: u32
    var expectedCRC: bv32
    var runningCRC: bv32
    var receivedChunks: u16
    var lastChunkTime: u32
    ghost var accepted: seq<seq<byte>>

    ghost function Abstract(): Transfer
      reads this, flash
    {
      Transfer(state, expectedSize, expectedCRC, accepted, flash.contents)
    }

    /** The counts and the CRC are those of the accepted chunks. */
    ghost predicate Valid()
      reads this, flash
    {
      && Sound(Abstract())
      && (state == Receiving ==>
            && flash.size == expectedSize
            && receivedSize == |Flat(accepted)|
            && receivedChunks == IndexOf(|accepted|)
            && runningCRC == Crc32.Run(Crc32.INIT, Flat(accepted)))
      && (state == Idle ==> accepted == [] && flash.contents == [])
    }

    constructor (flash: FlashDevice, chunkTimeoutMs: u32)
      requires flash.contents == []
      ensures Valid() && this.flash == flash && this.chunkTimeoutMs == chunkTimeoutMs
      ensures Abstract() == NEW && receivedChunks == 0
    {
      this.flash, this.chunkTimeoutMs := flash, chunkTimeoutMs;
      state, lastError := Idle, NoError;
      expectedSize, receivedSize, expectedCRC, runningCRC, receivedChunks, lastChunkTime := 0, 0, 0, 0xFFFF_FFFF, 0, 0;
      accepted := [];
    }

    method HandleStart(announcement: Option<Announcement>, env: StartEnv, now: u32) returns (ok: bool, reply: Reply)
      requires Valid()
      modifies this, flash
      ensures Valid()
      ensures Abstract() == AfterStart(old(Abstract()), announcement, env)
      ensures ok <==> old(state) == Idle && announcement.Some? && StartAllowed(announcement.value, env)
      ensures ok ==> reply == Status(true, NoError, 0) && lastChunkTime == now
      ensures !ok ==> lastError == FirstRefusal(old(state), announcement, env)
      ensures !ok ==> reply == Status(false, lastError, receivedChunks) && lastChunkTime == old(lastChunkTime)
    {
      hide Crc32.Run, Packed;
      if state != Idle || announcement.None? {
        lastError := InvalidState;
        return false, Status(false, lastError, receivedChunks);
      }
      var start := announcement.value;
      expectedSize, expectedCRC := start.totalSize, start.expectedCrc;
      if !env.batteryOk {
        lastError := LowBattery;
        return false, Status(false, lastError, receivedChunks);
      }
      if Packed(start.version) < Packed(env.current) {
        lastError := VersionRejected;
        return false, Status(false, lastError, receivedChunks);
      }
      if env.partition.None? {
        lastError := NoPartition;
        return false, Status(false, lastError, receivedChunks);
      }
      if expectedSize > env.partition.value {
        lastError := TooLarge;
        return false, Status(false, lastError, receivedChunks);
      }
      var began := flash.Begin(expectedSize, env.beginOk);
      if !began {
        lastError := BeginFailed;
        return false, Status(false, lastError, receivedChunks);
      }
      state, receivedSize, receivedChunks, runningCRC, lastChunkTime, lastError := Receiving, 0, 0, 0xFFFF_FFFF, now,
          NoError;
      accepted := [];
      assert Crc32.Run(Crc32.INIT, []) == 0xFFFF_FFFF by { EmptyRun(); }
      return true, Status(true, NoError, receivedChunks);
    }

    lemma EmptyRun()
      ensures Crc32.Run(Crc32.INIT, []) == 0xFFFF_FFFF
    {
    }

    method HandleData(chunkIndex: u16, payload: array<byte>, length: nat, limit: nat, now: u32)
        returns (ok: bool, reply: Reply)
      requires Valid() && length <= payload.Length
      modifies this, flash`contents
      ensures Valid()
      ensures Abstract() == AfterChunk(old(Abstract()), chunkIndex, payload[..length], limit)
      ensures accepted == if ok then old(accepted) + [payload[..length]] else old(accepted)
      ensures reply == ChunkAck(if old(state) == Receiving && chunkIndex != old(receivedChunks) then receivedChunks
          else chunkIndex, ok)
      ensures lastChunkTime == if ok then now else old(lastChunkTime)
      ensures lastError == if ok || old(state) != Receiving then old(lastError)
                           else if chunkIndex != old(receivedChunks) then ChunkOutOfOrder else WriteFailed
    {
      hide Crc32.Run;
      if state != Receiving {
        return false, ChunkAck(chunkIndex, false);
      }
      if chunkIndex != receivedChunks {
        lastError := ChunkOutOfOrder;
        return false, ChunkAck(receivedChunks, false);
      }
      ok := TakeChunk(payload, length, limit, now, chunkIndex);
      return ok, ChunkAck(chunkIndex, ok);
    }

    /** Writes the chunk that is due. */
    method TakeChunk(payload: array<byte>, length: nat, limit: nat, now: u32, ghost index: u16) returns (ok: bool)
      requires Valid() && length <= payload.Length && Awaits(Abstract(), index)
      modifies this`lastError, this`runningCRC, this`receivedSize, this`receivedChunks, this`lastChunkTime,
          this`accepted, flash`contents
      ensures Valid()
      ensures Abstract() == AfterChunk(old(Abstract()), index, payload[..length], limit)
      ensures accepted == if ok then old(accepted) + [payload[..length]] else old(accepted)
      ensures lastChunkTime == if ok then now else old(lastChunkTime)
      ensures receivedChunks == IndexOf(|accepted|)
      ensures lastError == if ok then old(lastError) else WriteFailed
    {
      ghost var t, data := Abstract(), payload[..length];
      ApplySound(t, Chunk(index, data, limit));
      if Taken(t.size, |t.flash|, length, limit) == length {
        SizeFits(t, index, data, limit);
      }
      assert Apply(t, Chunk(index, data, limit)) == AfterChunk(t, index, data, limit);
      hide Flat, Taken, Sound, IndexOf, Crc32.Run, Apply;
      var written := flash.Write(payload, length, limit);
      if written != length {
        lastError := WriteFailed;
        assert Abstract() == AfterChunk(t, index, data, limit);
        return false;
      }
      assert data[..written] == data;
      Count(payload, length, now);
      assert Abstract() == AfterChunk(t, index, data, limit);
      return true;
    }

    lemma SizeFits(t: Transfer, index: u16, data: seq<byte>, limit: nat)
      requires Sound(t) && Awaits(t, index) && Taken(t.size, |t.flash|, |data|, limit) == |data|
      ensures |Flat(t.accepted + [data])| < U32_COUNT
    {
      FlatSnoc(t.accepted, data);
    }

    /** Counts a chunk that is in flash. */
    method Count(payload: array<byte>, length: nat, now: u32)
      requires length <= payload.Length
      requires receivedSize == |Flat(accepted)| && receivedChunks == IndexOf(|accepted|)
      requires runningCRC == Crc32.Run(Crc32.INIT, Flat(accepted))
      requires |Flat(accepted + [payload[..length]])| < U32_COUNT
      modifies this`runningCRC, this`receivedSize, this`receivedChunks, this`lastChunkTime, this`accepted
      ensures accepted == old(accepted) + [payload[..length]]
      ensures receivedSize == |Flat(accepted)| && receivedChunks == IndexOf(|accepted|)
      ensures runningCRC == Crc32.Run(Crc32.INIT, Flat(accepted))
      ensures lastChunkTime == now
    {
      hide Flat, Crc32.Run, IndexOf;
      FlatSnoc(accepted, payload[..length]);
      NextIndex(|accepted|);
      Crc32.RunConcat(Crc32.INIT, Flat(accepted), payload[..length]);
      runningCRC := Crc32.Update(runningCRC, payload, length);
      receivedSize := (receivedSize + length) % U32_COUNT;
      receivedChunks := (receivedChunks + 1) % U16_COUNT;
      lastChunkTime := now;
      accepted := accepted + [payload[..length]];
    }

    /** Compares what was counted with what was announced. */
    method CheckImage() returns (error: OTAError)
      requires receivedSize == |Flat(accepted)| && runningCRC == Crc32.Run(Crc32.INIT, Flat(accepted))
      ensures error == if |Flat(accepted)| != expectedSize then SizeMismatch
                       else if Crc32.Checksum(Flat(accepted)) != expectedCRC then CrcMismatch
                       else NoError
    {
      hide Crc32.Run, Crc32.Complement, Flat;
      if receivedSize != expectedSize {
        return SizeMismatch;
      }
      var finalCRC := Crc32.Complement(runningCRC);
      if finalCRC != expectedCRC {
        return CrcMismatch;
      }
      return NoError;
    }

    method HandleCommit(endOk: bool) returns (ok: bool, reply: Reply)
      requires Valid()
      modifies this`state, this`lastError, flash`contents
      ensures Valid()
      ensures Abstract() == AfterCommit(old(Abstract()), endOk)
      ensures ok <==> old(state) == Receiving && state == Rebooting
      ensures reply == Status(ok, if ok then NoError else lastError, receivedChunks)
      ensures ok ==> lastError == old(lastError)
      ensures !ok ==> lastError == if old(state) != Receiving then InvalidState
                                   else if |Flat(accepted)| != expectedSize then SizeMismatch
                                   else if Crc32.Checksum(Flat(accepted)) != expectedCRC then CrcMismatch
                                   else CommitFailed
    {
      hide Crc32.Run, Crc32.Checksum, Flat;
      if state != Receiving {
        lastError := InvalidState;
        return false, Status(false, lastError, receivedChunks);
      }
      state := Validating;
      var error := CheckImage();
      if error != NoError {
        state, lastError := Failed, error;
        flash.Abort();
        return false, Status(false, lastError, receivedChunks);
      }
      state := Committing;
      if !endOk {
        state, lastError := Failed, CommitFailed;
        return false, Status(false, lastError, receivedChunks);
      }
      state := Rebooting;
      return true, Status(true, NoError, receivedChunks);
    }

    method HandleAbort()
      requires Valid()
      modifies this`state, this`lastError, this`receivedSize, this`receivedChunks, this`accepted, flash`contents
      ensures Valid() && state == Idle
      ensures Abstract() == AfterAbort(old(Abstract()))
      ensures old(state) != Idle ==> receivedChunks == 0 && lastError == NoError
      ensures old(state) == Idle ==> receivedChunks == old(receivedChunks) && lastError == old(lastError)
    {
      if state == Idle {
        return;
      }
      flash.Abort();
      state, receivedSize, receivedChunks, lastError := Idle, 0, 0, NoError;
      accepted := [];
    }

    method Update(now: u32)
      requires Valid()
      modifies this`state, this`lastError, this`receivedSize, this`receivedChunks, this`accepted, flash`contents
      ensures Valid()
      ensures
        var timedOut := (now - lastChunkTime) % U32_COUNT > chunkTimeoutMs;
        && Abstract() == Apply(old(Abstract()), Tick(timedOut))
        && lastError == if old(state) == Receiving && timedOut then TimedOut else old(lastError)
    {
      if state == Receiving && (now - lastChunkTime) % U32_COUNT > chunkTimeoutMs {
        HandleAbort();
        lastError := TimedOut;
      }
    }
  }

  /** The error of a refused start names the first check that failed, in the order of the source. */
  lemma RefusalNames(state: Phase, announcement: Option<Announcement>, env: StartEnv)
    requires !(state == Idle && announcement.Some? && StartAllowed(announcement.value, env))
    ensures
      var error := FirstRefusal(state, announcement, env);
      if state != Idle || announcement.None? then error == InvalidState
      else
        var a := announcement.value;
        && (error == LowBattery <==> !env.batteryOk)
        && (error == VersionRejected <==> env.batteryOk && Older(a.version, env.current))
        && (error == NoPartition <==> env.batteryOk && !Older(a.version, env.current) && env.partition.None?)
        && (error == TooLarge <==>
              && env.batteryOk && !Older(a.version, env.current)
              && env.partition.Some? && a.totalSize > env.partition.value)
        && (error == BeginFailed <==>
              && env.batteryOk && !Older(a.version, env.current)
              && env.partition.Some? && a.totalSize <= env.partition.value && !env.beginOk)
  {
    if announcement.Some? {
      PackedOrder(announcement.value.version, env.current);
    }
    hide Packed;
  }
}
