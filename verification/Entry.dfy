/** One connection of a chunkserver: its state, and what each packet, socket event
    and finished background job does to it. Sockets, byte cursors and the wire
    format are replaced by their outcomes. */
module Entry {
  import opened Common

  /** Status codes; zero is success. */
  type Status = nat
  const STATUS_OK: Status := 0
  const ERROR_NOTDONE: Status := 16
  const ERROR_WRONGSIZE: Status := 24
  const ERROR_WRONGOFFSET: Status := 25
  const ERROR_WRONGCHUNKID: Status := 27
  const ERROR_CANTCONNECT: Status := 26
  const ERROR_DISCONNECTED: Status := 28

  datatype State =
    Idle | Read | GetBlock | WriteLast | Connecting | WriteInit | WriteForward
    | WriteFinish | Close | CloseWait | Closed

  datatype Packet =
    | ReadReq(wellFormed: bool, offset: nat, size: nat)
    | PrefetchReq(wellFormed: bool)
    | WriteInitReq(wellFormed: bool, chain: nat)
    | GetBlocksReq
    | Query(wellFormed: bool, reply: bool)
    | WriteData(wellFormed: bool, rightSize: bool, sameChunk: bool, writeId: nat)
    | WriteEnd(wellFormed: bool, sameChunk: bool)
    | WriteAck(wellFormed: bool, sameChunk: bool, writeId: nat, status: Status)
    | Nop
    | Unknown

  datatype OutPacket =
    | ReadData(offset: nat, size: nat)
    | ReadStatus(status: Status)
    | WriteStatus(writeId: nat, status: Status)
    | BlocksReply(status: Status)
    | Reply

  datatype JobOp =
    | OpOpen
    | OpClose
    | OpRead(offset: nat, size: nat, performOpen: bool)
    | OpWrite(writeId: nat)
    | OpGetBlocks
    | OpPrefetch

  datatype Callback = ReadFinished | WriteFinished | BlocksFinished | DelayedClose

  /** What a handler asks of the job pool: a new job, whose identifier is the next
      one the pool hands out, or a running job to be disabled and redirected. A failed
      assertion ends the whole chunkserver. */
  datatype Effect =
    | NoEffect
    | Submit(op: JobOp, callback: Option<Callback>)
    | Redirect(jobId: nat)
    | Abort

  /** How connecting to the next chunkserver of a chain begins. */
  datatype Connect = Refused | Pending | Immediate

  /** Outcomes the environment chooses: the connection attempt, and whether a
      buffer for the next piece of a read could be set up. */
  datatype Env = Env(connect: Connect, bufferReady: bool)

  /** Buffers can be had, other chunkservers cannot. */
  const READY: Env := Env(Refused, true)

  datatype Conn = Conn(
    state: State,
    held: Option<Packet>,         // read and forwarded, waits for the write job
    out: seq<OutPacket>,
    writeJobId: nat,
    writeJobWriteId: nat,
    partial: set<nat>,            // partiallyCompletedWrites
    readJobId: nat,
    todoRead: nat,                // an 8-bit counter
    getBlocksJobId: nat,
    readPacket: Option<OutPacket>,
    isChunkOpen: bool,
    serializer: bool,             // messageSerializer is not null
    offset: nat,
    size: nat)

  function Fresh(): Conn {
    Conn(Idle, None, [], 0, 0, {}, 0, 0, 0, None, false, false, 0, 0)
  }

  function Attach(e: Conn, p: OutPacket): Conn {
    e.(out := e.out + [p])
  }

  function Succ8(n: nat): nat { (n + 1) % 0x100 }

  function Pred8(n: nat): nat { (n + 0xFF) % 0x100 }

  function CloseChunk(e: Conn): (Conn, Effect) {
    if e.isChunkOpen then (e.(isChunkOpen := false), Submit(OpClose, None)) else (e, NoEffect)
  }

  // ----- reading --------------------------------------------------------------

  function QueueReadPacket(e: Conn): Conn {
    if e.readPacket.Some?
    then Attach(e, e.readPacket.value).(readPacket := None, todoRead := Succ8(e.todoRead))
    else e
  }

  /** The part of the request up to the end of its first block. */
  function PieceSize(offset: nat, size: nat): nat {
    Min(size, BLOCK_SIZE - offset % BLOCK_SIZE)
  }

  /** The range lies in a chunk and is not empty. */
  predicate ValidRequest(offset: nat, size: nat) {
    0 < size <= CHUNK_SIZE && offset < CHUNK_SIZE && offset + size <= CHUNK_SIZE
  }

  /** The next piece, or the status after the last one; a chunk that was read to the end
      must be open. */
  function ReadContinue(e: Conn, env: Env, next: nat): (Conn, Effect) {
    var q := QueueReadPacket(e);
    if q.size == 0 && !q.isChunkOpen then (q, Abort)
    else if q.size == 0 then
      (Attach(q, ReadStatus(STATUS_OK)).(isChunkOpen := false, state := Idle), Submit(OpClose, None))
    else if !env.bufferReady then
      (q.(state := Close), NoEffect)
    else
      var n := PieceSize(q.offset, q.size);
      (q.(readPacket := Some(ReadData(q.offset, n)),
          readJobId := next,
          todoRead := Succ8(q.todoRead),
          offset := q.offset + n,
          size := if n <= q.size then q.size - n else 0),
       Submit(OpRead(q.offset, n, !q.isChunkOpen), Some(ReadFinished)))
  }

  function ReadInit(e: Conn, p: Packet, env: Env, next: nat): (Conn, Effect)
    requires p.ReadReq?
  {
    if !p.wellFormed then (e.(state := Close), NoEffect)
    else
      var r := e.(offset := p.offset, size := p.size, serializer := true);
      if p.size == 0 then (Attach(r, ReadStatus(STATUS_OK)), NoEffect)
      else if p.size > CHUNK_SIZE then (Attach(r, ReadStatus(ERROR_WRONGSIZE)), NoEffect)
      else if p.offset >= CHUNK_SIZE || p.offset + p.size > CHUNK_SIZE then
        (Attach(r, ReadStatus(ERROR_WRONGOFFSET)), NoEffect)
      else ReadContinue(r.(state := Read, todoRead := 0, readJobId := 0), env, next)
  }

  function OnReadFinished(e: Conn, status: Status, env: Env, next: nat): (Conn, Effect) {
    var r := e.(readJobId := 0);
    if status == STATUS_OK then
      var c := r.(todoRead := Pred8(r.todoRead), isChunkOpen := true);
      if c.todoRead == 0 then ReadContinue(c, env, next) else (c, NoEffect)
    else
      var (c, eff) := CloseChunk(Attach(r, ReadStatus(status)));
      (c.(state := Idle), eff)
  }

  /** One packet of the output queue has left. */
  function OnPacketSent(e: Conn, env: Env, next: nat): (Conn, Effect)
    requires e.out != []
  {
    var s := e.(out := e.out[1..]);
    if s.state != Read then (s, NoEffect)
    else
      var c := s.(todoRead := Pred8(s.todoRead));
      if c.todoRead == 0 then ReadContinue(c, env, next) else (c, NoEffect)
  }

  // ----- writing --------------------------------------------------------------

  function OnWriteInit(e: Conn, p: Packet, env: Env, next: nat): (Conn, Effect)
    requires p.WriteInitReq?
  {
    if !p.wellFormed then (e.(state := Close), NoEffect)
    else if p.chain > 0 && env.connect.Refused? then
      (Attach(e, WriteStatus(0, ERROR_CANTCONNECT)).(state := WriteFinish, serializer := true), NoEffect)
    else
      var s := if p.chain == 0 then WriteLast
               else if env.connect.Immediate? then WriteInit else Connecting;
      (e.(state := s, writeJobWriteId := 0, writeJobId := next, serializer := true),
       Submit(OpOpen, Some(WriteFinished)))
  }

  function OnWriteData(e: Conn, p: Packet, next: nat): (Conn, Effect)
    requires p.WriteData?
  {
    if !p.wellFormed then (e.(state := Close), NoEffect)
    else if !p.rightSize then
      (Attach(e, WriteStatus(p.writeId, ERROR_WRONGSIZE)).(state := WriteFinish), NoEffect)
    else if !p.sameChunk then
      (Attach(e, WriteStatus(p.writeId, ERROR_WRONGCHUNKID)).(state := WriteFinish), NoEffect)
    else
      (e.(writeJobWriteId := p.writeId, writeJobId := next),
       Submit(OpWrite(p.writeId), Some(WriteFinished)))
  }

  /** A write identifier has been completed on one side, here or downstream: the
      second side to complete it sends the status. */
  function CompleteOneSide(e: Conn, writeId: nat): Conn {
    if writeId in e.partial
    then Attach(e, WriteStatus(writeId, STATUS_OK)).(partial := e.partial - {writeId})
    else e.(partial := e.partial + {writeId})
  }

  function OnWriteAck(e: Conn, p: Packet): (Conn, Effect)
    requires p.WriteAck?
  {
    if !e.serializer then (e, Abort)
    else if !p.wellFormed then (e.(state := Close), NoEffect)
    else
      var status := if p.sameChunk then p.status else ERROR_WRONGCHUNKID;
      var writeId := if p.sameChunk then p.writeId else 0;
      if status != STATUS_OK
      then (Attach(e, WriteStatus(writeId, status)).(state := WriteFinish), NoEffect)
      else (CompleteOneSide(e, writeId), NoEffect)
  }

  function OnWriteEnd(e: Conn, p: Packet): (Conn, Effect)
    requires p.WriteEnd?
  {
    var n := e.(serializer := false);
    if !p.wellFormed || !p.sameChunk then (n.(state := WriteFinish), NoEffect)
    else if e.writeJobId > 0 || e.partial != {} || e.out != [] then
      (n.(state := WriteFinish), NoEffect)
    else
      var (c, eff) := CloseChunk(n);
      (c.(state := Idle), eff)
  }

  function OnWriteFinished(e: Conn, status: Status, env: Env, next: nat): (Conn, Effect) {
    var w := e.(writeJobId := 0);
    if !w.serializer then (w, Abort)
    else if status != STATUS_OK then
      (Attach(w, WriteStatus(w.writeJobWriteId, status)).(state := WriteFinish), NoEffect)
    else
      var o := if w.writeJobWriteId == 0 then w.(isChunkOpen := true) else w;
      var c := if o.state == WriteLast
               then Attach(o, WriteStatus(o.writeJobWriteId, STATUS_OK))
               else CompleteOneSide(o, o.writeJobWriteId);
      CheckNextPacket(c, env, next)
  }

  function OnForwardError(e: Conn): (Conn, Effect) {
    var status := if e.state == Connecting then ERROR_CANTCONNECT else ERROR_DISCONNECTED;
    if !e.serializer then (e, Abort)
    else (Attach(e, WriteStatus(0, status)).(state := WriteFinish), NoEffect)
  }

  // ----- dispatch -------------------------------------------------------------

  function GotPacket(e: Conn, p: Packet, env: Env, next: nat): (Conn, Effect) {
    if p.Nop? then (e, NoEffect)
    else match e.state {
      case Idle => GotIdlePacket(e, p, env, next)
      case WriteLast =>
        if p.WriteData? then OnWriteData(e, p, next)
        else if p.WriteEnd? then OnWriteEnd(e, p)
        else (e.(state := Close), NoEffect)
      case WriteForward =>
        if p.WriteData? then OnWriteData(e, p, next)
        else if p.WriteAck? then OnWriteAck(e, p)
        else if p.WriteEnd? then OnWriteEnd(e, p)
        else (e.(state := Close), NoEffect)
      case WriteFinish =>
        if p.WriteData? || p.WriteEnd? then (e, NoEffect) else (e.(state := Close), NoEffect)
      case _ => (e.(state := Close), NoEffect)
    }
  }

  function GotIdlePacket(e: Conn, p: Packet, env: Env, next: nat): (Conn, Effect) {
    match p {
      case ReadReq(_, _, _) => ReadInit(e, p, env, next)
      case PrefetchReq(wellFormed) =>
        if wellFormed then (e, Submit(OpPrefetch, None)) else (e.(state := Close), NoEffect)
      case WriteInitReq(_, _) => OnWriteInit(e, p, env, next)
      case GetBlocksReq =>
        (e.(getBlocksJobId := next, state := GetBlock), Submit(OpGetBlocks, Some(BlocksFinished)))
      case Query(wellFormed, reply) =>
        if !wellFormed then (e.(state := Close), NoEffect)
        else if reply then (Attach(e, Reply), NoEffect)
        else (e, NoEffect)
      case _ => (e.(state := Close), NoEffect)
    }
  }

  /** Serves the packet that waited for the write job, if there is one. */
  function CheckNextPacket(e: Conn, env: Env, next: nat): (Conn, Effect) {
    if e.held.Some? then GotPacket(e.(held := None), e.held.value, env, next) else (e, NoEffect)
  }

  /** A packet from the client is complete, and forwarded if it has to be. */
  function OnInput(e: Conn, p: Packet, env: Env, next: nat): (Conn, Effect) {
    if e.writeJobId == 0 then GotPacket(e, p, env, next) else (e.(held := Some(p)), NoEffect)
  }

  // ----- get blocks and closing -----------------------------------------------

  function OnBlocksFinished(e: Conn, status: Status): Conn {
    Attach(e, BlocksReply(status)).(getBlocksJobId := 0, state := Idle)
  }

  /** The job that a closing connection has to wait for; zero if there is none. */
  function RecordedJob(e: Conn): nat {
    if e.readJobId > 0 then e.readJobId
    else if e.writeJobId > 0 then e.writeJobId
    else e.getBlocksJobId
  }

  function CloseJobs(e: Conn): (Conn, Effect) {
    if RecordedJob(e) > 0 then (e.(state := CloseWait), Redirect(RecordedJob(e)))
    else
      var (c, eff) := CloseChunk(e);
      (c.(state := Closed), eff)
  }

  function OnDelayedClose(e: Conn, status: Status): (Conn, Effect) {
    var nowOpen := status == STATUS_OK
                  && ((e.writeJobId > 0 && e.writeJobWriteId == 0) || e.readJobId > 0);
    var (c, eff) := CloseChunk(if nowOpen then e.(isChunkOpen := true) else e);
    (c.(state := Closed), eff)
  }

  /** The callback of a finished job. */
  function RunCallback(e: Conn, callback: Callback, status: Status, env: Env, next: nat)
    : (Conn, Effect)
  {
    match callback
    case ReadFinished => OnReadFinished(e, status, env, next)
    case WriteFinished => OnWriteFinished(e, status, env, next)
    case BlocksFinished => (OnBlocksFinished(e, status), NoEffect)
    case DelayedClose => OnDelayedClose(e, status)
  }
}
