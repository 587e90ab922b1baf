/** The connection object itself: its fields are updated in place, and every method
    is proved against the transition function of the same event. A request to the
    job pool is handed to the caller as an effect; `next` is the identifier that the
    pool assigns to it. */
module ChunkserverEntryObject {
  import opened Common
  import opened Entry

  class ChunkserverEntry {
    var state: State
    var held: Option<Packet>
    var out: seq<OutPacket>
    var writeJobId: nat
    var writeJobWriteId: nat
    var partial: set<nat>
    var readJobId: nat
    var todoRead: nat
    var getBlocksJobId: nat
    var readPacket: Option<OutPacket>
    var isChunkOpen: bool
    var serializer: bool
    var offset: nat
    var size: nat

    function View(): Conn
      reads this
    {
      Conn(state, held, out, writeJobId, writeJobWriteId, partial, readJobId, todoRead,
           getBlocksJobId, readPacket, isChunkOpen, serializer, offset, size)
    }

    constructor ()
      ensures View() == Fresh()
    {
      state, held, out := Idle, None, [];
      writeJobId, writeJobWriteId, partial := 0, 0, {};
      readJobId, todoRead, getBlocksJobId := 0, 0, 0;
      readPacket, isChunkOpen, serializer, offset, size := None, false, false, 0, 0;
    }

    method CreateAttachedPacket(p: OutPacket)
      modifies this`out
      ensures out == old(out) + [p]
    {
      out := out + [p];
    }

    method CloseChunkIfOpen() returns (eff: Effect)
      modifies this`isChunkOpen
      ensures (View(), eff) == CloseChunk(old(View()))
    {
      eff := NoEffect;
      if isChunkOpen {
        eff := Submit(OpClose, None);
        isChunkOpen := false;
      }
    }

    method ReadContinue(env: Env, next: nat) returns (eff: Effect)
      modifies this
      ensures (View(), eff) == Entry.ReadContinue(old(View()), env, next)
    {
      if readPacket.Some? {
        CreateAttachedPacket(readPacket.value);
        readPacket := None;
        todoRead := (todoRead + 1) % 0x100;
      }
      if size == 0 {
        if !isChunkOpen {
          return Abort;
        }
        CreateAttachedPacket(ReadStatus(STATUS_OK));
        eff := Submit(OpClose, None);
        isChunkOpen := false;
        state := Idle;
        return;
      }
      var thisPartOffset := offset % BLOCK_SIZE;
      var thisPartSize: nat := if size < BLOCK_SIZE - thisPartOffset then size else BLOCK_SIZE - thisPartOffset;
      if !env.bufferReady {
        state := Close;
        return NoEffect;
      }
      readPacket := Some(ReadData(offset, thisPartSize));
      readJobId := next;
      eff := Submit(OpRead(offset, thisPartSize, !isChunkOpen), Some(ReadFinished));
      todoRead := (todoRead + 1) % 0x100;
      offset := offset + thisPartSize;
      size := size - thisPartSize;
    }

    method ReadInit(p: Packet, env: Env, next: nat) returns (eff: Effect)
      requires p.ReadReq?
      modifies this
      ensures (View(), eff) == Entry.ReadInit(old(View()), p, env, next)
    {
      eff := NoEffect;
      if !p.wellFormed {
        state := Close;
        return;
      }
      offset, size := p.offset, p.size;
      serializer := true;
      if size == 0 {
        CreateAttachedPacket(ReadStatus(STATUS_OK));
      } else if size > CHUNK_SIZE {
        CreateAttachedPacket(ReadStatus(ERROR_WRONGSIZE));
      } else if offset >= CHUNK_SIZE || offset + size > CHUNK_SIZE {
        CreateAttachedPacket(ReadStatus(ERROR_WRONGOFFSET));
      } else {
        state := Read;
        todoRead := 0;
        readJobId := 0;
        eff := ReadContinue(env, next);
      }
    }

    method ReadFinishedCallback(status: Status, env: Env, next: nat) returns (eff: Effect)
      modifies this
      ensures (View(), eff) == OnReadFinished(old(View()), status, env, next)
    {
      readJobId := 0;
      eff := NoEffect;
      if status == STATUS_OK {
        todoRead := (todoRead + 0xFF) % 0x100;
        isChunkOpen := true;
        if todoRead == 0 {
          eff := ReadContinue(env, next);
        }
      } else {
        CreateAttachedPacket(ReadStatus(status));
        eff := CloseChunkIfOpen();
        state := Idle;
      }
    }

    /** The front packet of the output queue has been written to the socket. */
    method PacketSent(env: Env, next: nat) returns (eff: Effect)
      requires out != []
      modifies this
      ensures (View(), eff) == OnPacketSent(old(View()), env, next)
    {
      out := out[1..];
      eff := NoEffect;
      if state == Read {
        todoRead := (todoRead + 0xFF) % 0x100;
        if todoRead == 0 {
          eff := ReadContinue(env, next);
        }
      }
    }

    method WriteInit(p: Packet, env: Env, next: nat) returns (eff: Effect)
      requires p.WriteInitReq?
      modifies this
      ensures (View(), eff) == OnWriteInit(old(View()), p, env, next)
    {
      if !p.wellFormed {
        state := Close;
        return NoEffect;
      }
      serializer := true;
      if p.chain > 0 {
        match env.connect {
          case Refused =>
            CreateAttachedPacket(WriteStatus(0, ERROR_CANTCONNECT));
            state := WriteFinish;
            return NoEffect;
          case Immediate => state := State.WriteInit;
          case Pending => state := Connecting;
        }
      } else {
        state := WriteLast;
      }
      writeJobWriteId := 0;
      writeJobId := next;
      eff := Submit(OpOpen, Some(WriteFinished));
    }

    method WriteData(p: Packet, next: nat) returns (eff: Effect)
      requires p.WriteData?
      modifies this
      ensures (View(), eff) == OnWriteData(old(View()), p, next)
    {
      if !p.wellFormed {
        state := Close;
        return NoEffect;
      }
      var status := STATUS_OK;
      if !p.rightSize {
        status := ERROR_WRONGSIZE;
      } else if !p.sameChunk {
        status := ERROR_WRONGCHUNKID;
      }
      if status != STATUS_OK {
        CreateAttachedPacket(WriteStatus(p.writeId, status));
        state := WriteFinish;
        return NoEffect;
      }
      writeJobWriteId := p.writeId;
      writeJobId := next;
      eff := Submit(OpWrite(p.writeId), Some(WriteFinished));
    }

    method WriteStatusReceived(p: Packet) returns (eff: Effect)
      requires p.WriteAck?
      modifies this
      ensures (View(), eff) == OnWriteAck(old(View()), p)
    {
      eff := NoEffect;
      if !serializer {
        return Abort;
      }
      if !p.wellFormed {
        state := Close;
        return;
      }
      var writeId, status := p.writeId, p.status;
      if !p.sameChunk {
        status := ERROR_WRONGCHUNKID;
        writeId := 0;
      }
      if status != STATUS_OK {
        CreateAttachedPacket(WriteStatus(writeId, status));
        state := WriteFinish;
      } else if writeId in partial {
        CreateAttachedPacket(WriteStatus(writeId, STATUS_OK));
        partial := partial - {writeId};
      } else {
        partial := partial + {writeId};
      }
    }

    method WriteEnd(p: Packet) returns (eff: Effect)
      requires p.WriteEnd?
      modifies this
      ensures (View(), eff) == OnWriteEnd(old(View()), p)
    {
      eff := NoEffect;
      serializer := false;
      if !p.wellFormed || !p.sameChunk {
        state := WriteFinish;
      } else if writeJobId > 0 || partial != {} || out != [] {
        state := WriteFinish;
      } else {
        eff := CloseChunkIfOpen();
        state := Idle;
      }
    }

    method WriteFinishedCallback(status: Status, env: Env, next: nat) returns (eff: Effect)
      modifies this
      ensures (View(), eff) == OnWriteFinished(old(View()), status, env, next)
    {
      writeJobId := 0;
      if !serializer {
        return Abort;
      }
      if status != STATUS_OK {
        CreateAttachedPacket(WriteStatus(writeJobWriteId, status));
        state := WriteFinish;
        return NoEffect;
      }
      if writeJobWriteId == 0 {
        isChunkOpen := true;
      }
      if state == WriteLast {
        CreateAttachedPacket(WriteStatus(writeJobWriteId, status));
      } else if writeJobWriteId in partial {
        CreateAttachedPacket(WriteStatus(writeJobWriteId, STATUS_OK));
        partial := partial - {writeJobWriteId};
      } else {
        partial := partial + {writeJobWriteId};
      }
      eff := CheckNextPacket(env, next);
    }

    method ForwardError() returns (eff: Effect)
      modifies this
      ensures (View(), eff) == OnForwardError(old(View()))
    {
      if !serializer {
        return Abort;
      }
      eff := NoEffect;
      var status := if state == Connecting then ERROR_CANTCONNECT else ERROR_DISCONNECTED;
      CreateAttachedPacket(WriteStatus(0, status));
      state := WriteFinish;
    }

    method CheckNextPacket(env: Env, next: nat) returns (eff: Effect)
      modifies this
      ensures (View(), eff) == Entry.CheckNextPacket(old(View()), env, next)
    {
      eff := NoEffect;
      if held.Some? {
        var p := held.value;
        held := None;
        eff := GotPacket(p, env, next);
      }
    }

    /** A whole packet has arrived; it waits if a write job is running. */
    method Input(p: Packet, env: Env, next: nat) returns (eff: Effect)
      modifies this
      ensures (View(), eff) == OnInput(old(View()), p, env, next)
    {
      if writeJobId == 0 {
        eff := GotPacket(p, env, next);
      } else {
        held := Some(p);
        eff := NoEffect;
      }
    }

    method GotPacket(p: Packet, env: Env, next: nat) returns (eff: Effect)
      modifies this
      ensures (View(), eff) == Entry.GotPacket(old(View()), p, env, next)
    {
      eff := NoEffect;
      if p.Nop? {
        return;
      }
      if state == Idle {
        eff := GotIdlePacket(p, env, next);
      } else if state == WriteLast {
        if p.WriteData? {
          eff := WriteData(p, next);
        } else if p.WriteEnd? {
          eff := WriteEnd(p);
        } else {
          state := Close;
        }
      } else if state == WriteForward {
        if p.WriteData? {
          eff := WriteData(p, next);
        } else if p.WriteAck? {
          eff := WriteStatusReceived(p);
        } else if p.WriteEnd? {
          eff := WriteEnd(p);
        } else {
          state := Close;
        }
      } else if state == WriteFinish {
        if !p.WriteData? && !p.WriteEnd? {
          state := Close;
        }
      } else {
        state := Close;
      }
    }

    method GotIdlePacket(p: Packet, env: Env, next: nat) returns (eff: Effect)
      modifies this
      ensures (View(), eff) == Entry.GotIdlePacket(old(View()), p, env, next)
    {
      eff := NoEffect;
      match p {
        case ReadReq(_, _, _) => eff := ReadInit(p, env, next);
        case PrefetchReq(wellFormed) =>
          if wellFormed {
            eff := Submit(OpPrefetch, None);
          } else {
            state := Close;
          }
        case WriteInitReq(_, _) => eff := WriteInit(p, env, next);
        case GetBlocksReq =>
          getBlocksJobId := next;
          state := GetBlock;
          eff := Submit(OpGetBlocks, Some(BlocksFinished));
        case Query(wellFormed, reply) =>
          if !wellFormed {
            state := Close;
          } else if reply {
            CreateAttachedPacket(Reply);
          }
        case _ => state := Close;
      }
    }

    method GetBlocksFinishedCallback(status: Status)
      modifies this
      ensures View() == OnBlocksFinished(old(View()), status)
    {
      getBlocksJobId := 0;
      CreateAttachedPacket(BlocksReply(status));
      state := Idle;
    }

    method CloseJobs() returns (eff: Effect)
      modifies this
      ensures (View(), eff) == Entry.CloseJobs(old(View()))
    {
      if readJobId > 0 {
        eff := Redirect(readJobId);
        state := CloseWait;
      } else if writeJobId > 0 {
        eff := Redirect(writeJobId);
        state := CloseWait;
      } else if getBlocksJobId > 0 {
        eff := Redirect(getBlocksJobId);
        state := CloseWait;
      } else {
        eff := CloseChunkIfOpen();
        state := Closed;
      }
    }

    method DelayedCloseCallback(status: Status) returns (eff: Effect)
      modifies this
      ensures (View(), eff) == OnDelayedClose(old(View()), status)
    {
      if writeJobId > 0 && writeJobWriteId == 0 && status == STATUS_OK {
        isChunkOpen := true;
      } else if readJobId > 0 && status == STATUS_OK {
        isChunkOpen := true;
      }
      eff := CloseChunkIfOpen();
      state := Closed;
    }
  }
}
