/** A network worker thread: its connections, the jobs its pool has not yet
    reported, and everything that can happen next. Job identifiers and connections
    are numbered and never reused, so a callback that outlives its connection would
    be visible. */
module Worker {
  import opened Common
  import opened Entry
  import JobPool

  datatype Phase = Enabled | Disabled | InProgress | Done(status: Status)

  datatype Target = Target(entry: nat, callback: Callback)

  /** A lost job is in no bucket of the pool's table: it still runs, but it can neither be
      called back nor redirected, and it is never freed. */
  datatype Job = Job(op: JobOp, target: Option<Target>, phase: Phase, lost: bool)

  /** `opens` and `closes` count, per connection, the chunk opens that succeeded and
      the close jobs that were queued. `dangling` records a callback that was run
      for a connection that no longer exists. `polled` are the connections whose forward
      socket is polled in this round and has not been looked at yet. `aborted` records a
      failed assertion, after which nothing happens any more. */
  datatype Worker = Worker(
    entries: map<nat, Conn>,
    jobs: map<nat, Job>,
    nextJob: nat,
    nextEntry: nat,
    opens: map<nat, nat>,
    closes: map<nat, nat>,
    dangling: bool,
    polled: set<nat>,
    aborted: bool)

  datatype Event =
    | Accept
    | Poll                                              // a new poll round
    | ClientPacket(id: nat, packet: Packet, env: Env)   // from the client's socket
    | ServerPacket(id: nat, packet: Packet)             // from the next chunkserver
    | Connected(id: nat)
    | InitSent(id: nat)
    | ForwardFailed(id: nat)
    | PacketSent(id: nat, env: Env)
    | Drop(id: nat)                                     // socket error or timeout
    | Settle(id: nat)                                   // end of the poll round
    | Start(job: nat)
    | Finish(job: nat, status: Status)
    | Deliver(job: nat, env: Env)
    | Erase(id: nat)

  function Initial(): Worker {
    Worker(map[], map[], 1, 0, map[], map[], false, {}, false)
  }

  function Count(m: map<nat, nat>, id: nat): nat {
    if id in m then m[id] else 0
  }

  /** Disabling has no effect on a job that a worker has picked up; a lost job is not found
      at all. */
  function Redirected(job: Job, id: nat): Job {
    if job.lost then job
    else job.(phase := if job.phase == Enabled then Disabled else job.phase,
              target := Some(Target(id, DelayedClose)))
  }

  function NewJob(op: JobOp, callback: Option<Callback>, id: nat): Job {
    Job(op, if callback.Some? then Some(Target(id, callback.value)) else None, Enabled, false)
  }

  /** The pool's jobs after the request of a connection. */
  function JobsAfter(jobs: map<nat, Job>, next: nat, id: nat, eff: Effect): map<nat, Job> {
    match eff
    case Submit(op, callback) => jobs[next := NewJob(op, callback, id)]
    case Redirect(j) => if j in jobs then jobs[j := Redirected(jobs[j], id)] else jobs
    case _ => jobs
  }

  function ClosesAfter(closes: map<nat, nat>, id: nat, eff: Effect): map<nat, nat> {
    if eff.Submit? && eff.op.OpClose? then closes[id := Count(closes, id) + 1] else closes
  }

  /** A connection takes its new value and its request to the pool is served. */
  function Apply(s: Worker, id: nat, r: (Conn, Effect)): Worker {
    Worker(s.entries[id := r.0], JobsAfter(s.jobs, s.nextJob, id, r.1),
           if r.1.Submit? then s.nextJob + 1 else s.nextJob, s.nextEntry, s.opens,
           ClosesAfter(s.closes, id, r.1), s.dangling, s.polled, s.aborted || r.1 == Abort)
  }

  predicate MustClose(e: Conn) {
    e.state == Close || (e.state == WriteFinish && e.out == [])
  }

  /** The poll round ends a connection that asks for it, after its socket events. */
  function Settled(r: (Conn, Effect)): (Conn, Effect) {
    if r.1 == NoEffect && MustClose(r.0) then CloseJobs(r.0) else r
  }

  predicate Opens(op: JobOp) {
    op.OpOpen? || (op.OpRead? && op.performOpen)
  }

  /** The states in which the client's socket is read. */
  predicate Listening(e: Conn) {
    e.state in {Idle, Read, GetBlock, WriteLast, WriteForward, WriteFinish} && e.held.None?
  }

  /** What is asked of the other side of a connection: a new read request only once
      the answers to earlier requests have been taken, and nothing but statuses from
      a chunkserver that is forwarded to. */
  predicate Polite(s: Worker, ev: Event) {
    match ev
    case ClientPacket(id, p, _) =>
      id in s.entries && s.entries[id].state == Idle && p.ReadReq? ==> s.entries[id].out == []
    case ServerPacket(id, p) => p.WriteAck? || p.Nop?
    case _ => true
  }

  /** The states in which the socket to the next chunkserver is polled. */
  predicate Forwards(e: Conn) {
    e.state in {Connecting, WriteInit, WriteForward}
  }

  predicate Possible(s: Worker, ev: Event) {
    !s.aborted && CanHappen(s, ev)
  }

  /** A poll round first receives the statuses of jobs and then looks at each connection, so
      an error of the forward socket may be found in a state in which it is not polled. */
  predicate CanHappen(s: Worker, ev: Event) {
    match ev
    case Accept => true
    case Poll => true
    case ClientPacket(id, _, _) => id in s.entries && Listening(s.entries[id])
    case ServerPacket(id, _) => id in s.entries && s.entries[id].state == WriteForward
    case Connected(id) => id in s.entries && s.entries[id].state == Connecting
    case InitSent(id) => id in s.entries && s.entries[id].state == WriteInit
    case ForwardFailed(id) =>
      id in s.entries && (Forwards(s.entries[id]) || id in s.polled)
    case PacketSent(id, _) =>
      id in s.entries && s.entries[id].out != [] && s.entries[id].state != Closed
    case Drop(id) => id in s.entries && s.entries[id].state !in {CloseWait, Closed}
    case Settle(id) => id in s.entries && MustClose(s.entries[id])
    case Start(j) => j in s.jobs && s.jobs[j].phase == Enabled
    case Finish(j, status) =>
      && j in s.jobs
      && (s.jobs[j].phase == InProgress
          || (s.jobs[j].phase == Disabled
              && (s.jobs[j].op.OpPrefetch? || status == ERROR_NOTDONE)))
    case Deliver(j, _) => j in s.jobs && s.jobs[j].phase.Done?
    case Erase(id) => id in s.entries && s.entries[id].state == Closed
  }

  function Step(s: Worker, ev: Event): Worker
    requires Possible(s, ev)
  {
    match ev
    case Accept => AddConnection(s)
    case Poll => s.(polled := set id | id in s.entries && Forwards(s.entries[id]))
    case Start(j) => s.(jobs := s.jobs[j := s.jobs[j].(phase := InProgress)])
    case Finish(j, status) => FinishJob(s, j, status)
    case Deliver(j, env) => DeliverJob(s, j, env)
    case Erase(id) => s.(entries := s.entries - {id})
    case _ => LookAt(Apply(s, ev.id, Handled(s.entries[ev.id], ev, s.nextJob)), ev.id)
  }

  /** An event of one connection's sockets. */
  predicate OfSocket(ev: Event) {
    !(ev.Accept? || ev.Poll? || ev.Start? || ev.Finish? || ev.Deliver? || ev.Erase?)
  }

  /** What was polled of this connection has been looked at. */
  function LookAt(s: Worker, id: nat): Worker {
    s.(polled := s.polled - {id})
  }

  /** What such an event does to the connection, and what it asks of the pool. */
  function Handled(e: Conn, ev: Event, next: nat): (Conn, Effect)
    requires OfSocket(ev) && (ev.PacketSent? ==> e.out != [])
  {
    match ev
    case ClientPacket(_, p, env) => Settled(OnInput(e, p, env, next))
    case ServerPacket(_, p) => Settled(GotPacket(e, p, Env(Refused, false), next))
    case Connected(_) => (e.(state := WriteInit), NoEffect)
    case InitSent(_) => (e.(state := WriteForward), NoEffect)
    case ForwardFailed(_) => Settled(OnForwardError(e))
    case PacketSent(_, env) => Settled(OnPacketSent(e, env, next))
    case _ => CloseJobs(e)
  }

  lemma SocketEvent(s: Worker, ev: Event)
    requires Possible(s, ev) && OfSocket(ev)
    ensures ev.id in s.entries && (ev.PacketSent? ==> s.entries[ev.id].out != [])
    ensures Step(s, ev) == LookAt(Apply(s, ev.id, Handled(s.entries[ev.id], ev, s.nextJob)), ev.id)
  {
  }

  function AddConnection(s: Worker): Worker {
    Apply(s.(nextEntry := s.nextEntry + 1), s.nextEntry, (Fresh(), NoEffect))
  }

  function FinishJob(s: Worker, j: nat, status: Status): Worker
    requires j in s.jobs
  {
    var job := s.jobs[j];
    s.(jobs := s.jobs[j := job.(phase := Done(status))],
       opens := if job.target.Some? && Opens(job.op) && status == STATUS_OK
                then s.opens[job.target.value.entry := Count(s.opens, job.target.value.entry) + 1]
                else s.opens)
  }

  /** The bucket of a job; the pool numbers its jobs from zero. */
  function Bucket(j: nat): nat {
    JobPool.Hash(if j > 0 then j - 1 else 0)
  }

  /** The job is the newest of its bucket. */
  predicate AtHead(s: Worker, j: nat) {
    forall k | k in s.jobs && !s.jobs[k].lost && Bucket(k) == Bucket(j) :: k <= j
  }

  /** What the callback of a job does. */
  function CallbackOf(s: Worker, j: nat, env: Env): (Conn, Effect)
    requires HasCallback(s, j)
  {
    var job := s.jobs[j];
    RunCallback(s.entries[job.target.value.entry], job.target.value.callback, job.phase.status, env, s.nextJob)
  }

  predicate HasCallback(s: Worker, j: nat) {
    && j in s.jobs && s.jobs[j].phase.Done? && !s.jobs[j].lost
    && s.jobs[j].target.Some? && s.jobs[j].target.value.entry in s.entries
  }

  /** The callback submits a job into the bucket whose head the called job still is. */
  predicate Clash(s: Worker, j: nat, env: Env) {
    HasCallback(s, j) && CallbackOf(s, j, env).1.Submit? && InTheWay(s, j)
  }

  /** A new job would go in front of this one. */
  predicate InTheWay(s: Worker, j: nat) {
    AtHead(s, j) && Bucket(s.nextJob) == Bucket(j)
  }

  /** The job is dropped from the table. */
  function Lose(s: Worker, j: nat): Worker {
    if j in s.jobs then s.(jobs := s.jobs[j := s.jobs[j].(lost := true)]) else s
  }

  function DeliverJob(s: Worker, j: nat, env: Env): Worker
    requires j in s.jobs && s.jobs[j].phase.Done?
  {
    var job := s.jobs[j];
    var t := s.(jobs := s.jobs - {j});
    if job.lost then s
    else if job.target.None? then t
    else if job.target.value.entry !in s.entries then t.(dangling := true)
    else Return(t, job.target.value.entry, CallbackOf(s, j, env), InTheWay(s, j))
  }

  /** A connection has been called back; a job that it submits may be lost. */
  function Return(s: Worker, id: nat, r: (Conn, Effect), clashes: bool): Worker {
    var u := Apply(s, id, r);
    if r.1.Submit? && clashes then Lose(u, s.nextJob) else u
  }

  /** A run of the worker thread. */
  ghost predicate IsRun(s: Worker, evs: seq<Event>)
    decreases |evs|
  {
    evs == [] || (Possible(s, evs[0]) && IsRun(Step(s, evs[0]), evs[1..]))
  }

  ghost predicate IsPoliteRun(s: Worker, evs: seq<Event>)
    decreases |evs|
  {
    evs == []
    || (Possible(s, evs[0]) && Polite(s, evs[0]) && IsPoliteRun(Step(s, evs[0]), evs[1..]))
  }

  ghost function After(s: Worker, evs: seq<Event>): Worker
    requires IsRun(s, evs)
    decreases |evs|
  {
    if evs == [] then s else After(Step(s, evs[0]), evs[1..])
  }

  // ----- one connection and the job that will call it back ---------------------------

  function OneIf(b: bool): nat {
    if b then 1 else 0
  }

  predicate AtMostOneJob(e: Conn) {
    && (e.readJobId > 0 ==> e.writeJobId == 0 && e.getBlocksJobId == 0)
    && (e.writeJobId > 0 ==> e.getBlocksJobId == 0)
  }

  predicate StateInv(e: Conn) {
    match e.state
    case Idle => RecordedJob(e) == 0 && e.held.None? && !e.isChunkOpen
    case Read =>
      && e.writeJobId == 0 && e.getBlocksJobId == 0 && e.held.None?
      && |e.out| <= 1
      && e.todoRead == OneIf(e.readJobId > 0) + |e.out|
      && e.todoRead > 0
      && (e.readJobId == 0 ==> e.isChunkOpen)
      && e.serializer
    case GetBlock => e.getBlocksJobId > 0 && e.held.None? && !e.isChunkOpen
    case WriteFinish => e.readJobId == 0 && e.getBlocksJobId == 0
    case Close => true
    case CloseWait => RecordedJob(e) > 0
    case Closed => !e.isChunkOpen
    case _ =>
      && e.readJobId == 0 && e.getBlocksJobId == 0
      && (e.held.Some? ==> e.writeJobId > 0)
      && (e.writeJobId > 0 || e.isChunkOpen)
      && e.serializer
  }

  /** The job is the one the connection has recorded, with the right callback. */
  predicate JobMatches(e: Conn, job: Job) {
    job.target.Some? && CallbackMatches(e, job.op, job.target.value.callback, job.lost)
  }

  predicate CallbackMatches(e: Conn, op: JobOp, callback: Callback, lost: bool) {
    && (!lost ==> (e.state == CloseWait <==> callback == DelayedClose))
    && (e.readJobId > 0
        ==> op.OpRead? && op.performOpen == !e.isChunkOpen && callback in {ReadFinished, DelayedClose})
    && (e.writeJobId > 0
        ==> && callback in {WriteFinished, DelayedClose}
            && ((op == OpOpen && e.writeJobWriteId == 0 && !e.isChunkOpen)
                || (op == OpWrite(e.writeJobWriteId) && e.isChunkOpen)))
    && (e.getBlocksJobId > 0
        ==> op == OpGetBlocks && !e.isChunkOpen && callback in {BlocksFinished, DelayedClose})
  }

  predicate PendingOpen(job: Job) {
    Opens(job.op) && job.phase == Done(STATUS_OK)
  }

  /** The connection may still have to be settled: in state Close a job may be left. */
  predicate LooseInv(e: Conn, job: Option<Job>, opens: nat, closes: nat) {
    && AtMostOneJob(e)
    && StateInv(e)
    && (e.writeJobId > 0 ==> e.serializer)
    && (job.Some? <==> e.state != Closed && RecordedJob(e) > 0)
    && (job.Some? ==> JobMatches(e, job.value))
    && opens == closes + OneIf(e.isChunkOpen) + OneIf(job.Some? && PendingOpen(job.value))
  }

  predicate LocalInv(e: Conn, job: Option<Job>, opens: nat, closes: nat) {
    LooseInv(e, job, opens, closes) && (e.state == Close ==> job.None?)
  }

  /** The result of a handler keeps the connection consistent with the pool. */
  predicate Keeps(r: (Conn, Effect), id: nat, job: Option<Job>, current: nat, next: nat,
                  opens: nat, closes: nat, loose: bool)
  {
    && next > 0
    && (job.Some? ==> RecordedJob(r.0) == current)
    && match r.1
       case NoEffect => LooseInv(r.0, job, opens, closes) && (!loose ==> r.0.state == Close ==> job.None?)
       case Submit(op, callback) =>
         var newJob := NewJob(op, callback, id);
         && r.0.state != Close
         && if callback.None?
            then LooseInv(r.0, job, opens, closes + OneIf(op.OpClose?))
            else job.None? && !op.OpClose? && RecordedJob(r.0) == next
                 && LooseInv(r.0, Some(newJob), opens, closes)
       case Redirect(j) =>
         && job.Some? && j == current
         && LooseInv(r.0, Some(Redirected(job.value, id)), opens, closes)
         && r.0.state == CloseWait
       case Abort => false
  }

  lemma SettledKeeps(r: (Conn, Effect), id: nat, job: Option<Job>, current: nat, next: nat,
                     opens: nat, closes: nat)
    requires Keeps(r, id, job, current, next, opens, closes, true)
    ensures Keeps(Settled(r), id, job, current, next, opens, closes, false)
  {
  }

  lemma CloseJobsKeeps(e: Conn, id: nat, job: Option<Job>, next: nat, opens: nat, closes: nat)
    requires next > 0 && LooseInv(e, job, opens, closes) && e.state !in {CloseWait, Closed}
    ensures Keeps(CloseJobs(e), id, job, RecordedJob(e), next, opens, closes, false)
  {
  }

  lemma ReadContinueKeeps(e: Conn, id: nat, env: Env, next: nat, opens: nat, closes: nat)
    requires next > 0 && e.state == Read && e.out == [] && e.todoRead == 0 && e.serializer
    requires RecordedJob(e) == 0 && e.held.None?
    requires opens == closes + OneIf(e.isChunkOpen)
    requires e.size == 0 ==> e.isChunkOpen
    ensures Keeps(ReadContinue(e, env, next), id, None, 0, next, opens, closes, false)
  {
  }

  lemma IdlePacketKeeps(e: Conn, p: Packet, id: nat, env: Env, next: nat, opens: nat, closes: nat)
    requires next > 0 && LooseInv(e, None, opens, closes) && e.state == Idle
    requires p.ReadReq? ==> e.out == []
    ensures Keeps(GotIdlePacket(e, p, env, next), id, None, 0, next, opens, closes, false)
  {
    if p.ReadReq? && p.wellFormed && ValidRequest(p.offset, p.size) {
      var r := e.(offset := p.offset, size := p.size, serializer := true, state := Read, todoRead := 0,
                  readJobId := 0);
      ReadContinueKeeps(r, id, env, next, opens, closes);
    }
  }

  lemma GotPacketKeeps(e: Conn, p: Packet, id: nat, env: Env, next: nat, opens: nat, closes: nat)
    requires next > 0 && LooseInv(e, None, opens, closes) && e.held.None? && e.state != Closed
    requires e.state == Idle && p.ReadReq? ==> e.out == []
    ensures Keeps(GotPacket(e, p, env, next), id, None, 0, next, opens, closes, false)
  {
    if e.state == Idle {
      IdlePacketKeeps(e, p, id, env, next, opens, closes);
    }
  }

  lemma InputKeeps(e: Conn, p: Packet, id: nat, job: Option<Job>, env: Env, next: nat,
                   opens: nat, closes: nat)
    requires next > 0 && LocalInv(e, job, opens, closes) && Listening(e)
    requires e.state == Idle && p.ReadReq? ==> e.out == []
    ensures Keeps(OnInput(e, p, env, next), id, job, RecordedJob(e), next, opens, closes, true)
  {
    if job.None? {
      GotPacketKeeps(e, p, id, env, next, opens, closes);
    }
  }

  lemma ServerPacketKeeps(e: Conn, p: Packet, id: nat, job: Option<Job>, env: Env, next: nat,
                          opens: nat, closes: nat)
    requires next > 0 && LocalInv(e, job, opens, closes) && e.state == WriteForward
    requires p.WriteAck? || p.Nop?
    ensures Keeps(GotPacket(e, p, env, next), id, job, RecordedJob(e), next, opens, closes, true)
  {
  }

  lemma SentKeeps(e: Conn, id: nat, job: Option<Job>, env: Env, next: nat, opens: nat, closes: nat)
    requires next > 0 && LocalInv(e, job, opens, closes) && e.state != Closed && e.out != []
    ensures Keeps(OnPacketSent(e, env, next), id, job, RecordedJob(e), next, opens, closes, true)
  {
    var c := e.(out := e.out[1..], todoRead := Pred8(e.todoRead));
    if e.state == Read && c.todoRead == 0 {
      ReadContinueKeeps(c, id, env, next, opens, closes);
    }
  }

  /** The job has been taken out of the pool; its callback settles the accounts. */
  lemma CallbackKeeps(e: Conn, id: nat, job: Job, env: Env, next: nat, opens: nat, closes: nat)
    requires next > 0 && LocalInv(e, Some(job), opens, closes) && job.phase.Done? && !job.lost
    ensures Keeps(RunCallback(e, job.target.value.callback, job.phase.status, env, next),
                  id, None, 0, next, opens, closes, false)
  {
    var status := job.phase.status;
    match job.target.value.callback {
      case ReadFinished =>
        var c := e.(readJobId := 0, todoRead := Pred8(e.todoRead), isChunkOpen := true);
        if status == STATUS_OK && c.todoRead == 0 {
          ReadContinueKeeps(c, id, env, next, opens, closes);
        }
      case WriteFinished => WriteFinishedKeeps(e, id, job, env, next, opens, closes);
      case BlocksFinished =>
      case DelayedClose =>
    }
  }

  lemma WriteFinishedKeeps(e: Conn, id: nat, job: Job, env: Env, next: nat, opens: nat, closes: nat)
    requires next > 0 && LocalInv(e, Some(job), opens, closes) && job.phase.Done? && !job.lost
    requires job.target.value.callback == WriteFinished
    ensures Keeps(OnWriteFinished(e, job.phase.status, env, next), id, None, 0, next, opens, closes, false)
  {
    if job.phase.status == STATUS_OK {
      var w := e.(writeJobId := 0);
      var o := if w.writeJobWriteId == 0 then w.(isChunkOpen := true) else w;
      var c := if o.state == WriteLast
               then Attach(o, WriteStatus(o.writeJobWriteId, STATUS_OK))
               else CompleteOneSide(o, o.writeJobWriteId);
      assert LooseInv(c.(held := None), None, opens, closes);
      if c.held.Some? {
        GotPacketKeeps(c.(held := None), c.held.value, id, env, next, opens, closes);
      }
    }
  }

  // ----- all connections and all jobs -------------------------------------------------

  function CurrentJob(s: Worker, id: nat): Option<Job>
    requires id in s.entries
  {
    var e := s.entries[id];
    if e.state != Closed && RecordedJob(e) in s.jobs then Some(s.jobs[RecordedJob(e)]) else None
  }

  ghost predicate EntryInv(s: Worker, id: nat)
    requires id in s.entries
  {
    var job := CurrentJob(s, id);
    && LocalInv(s.entries[id], job, Count(s.opens, id), Count(s.closes, id))
    && (job.Some? ==> job.value.target.value.entry == id)
  }

  /** A job with a callback belongs to a live connection that has recorded it. */
  predicate OwnedBy(s: Worker, j: nat, id: nat) {
    id in s.entries && s.entries[id].state != Closed && RecordedJob(s.entries[id]) == j
  }

  ghost predicate JobsOwned(s: Worker) {
    forall j | j in s.jobs && s.jobs[j].target.Some? :: OwnedBy(s, j, s.jobs[j].target.value.entry)
  }

  ghost predicate Balanced(s: Worker, id: nat) {
    Count(s.opens, id) == Count(s.closes, id)
  }

  /** What is polled and not yet looked at is not idle and not closed. */
  ghost predicate PolledInv(s: Worker) {
    forall id | id in s.polled :: id in s.entries && MayForward(s.entries[id])
  }

  predicate MayForward(e: Conn) {
    Forwards(e) || e.state in {WriteFinish, Close}
  }

  ghost predicate Inv(s: Worker) {
    Core(s) && PolledInv(s)
  }

  ghost predicate Core(s: Worker) {
    && s.nextJob > 0 && !s.dangling
    && (forall j | j in s.jobs :: 0 < j < s.nextJob)
    && (forall id | id in s.entries :: id < s.nextEntry)
    && (forall id | id in s.entries :: EntryInv(s, id))
    && JobsOwned(s)
    && (forall id | id !in s.entries :: Balanced(s, id))
  }

  /** The invariant of everything except one connection and its jobs. */
  ghost predicate InvExcept(s: Worker, id: nat, current: nat) {
    && s.nextJob > 0 && !s.dangling
    && id < s.nextEntry
    && (forall j | j in s.jobs :: 0 < j < s.nextJob)
    && (forall k | k in s.entries :: k < s.nextEntry)
    && (forall k | k in s.entries && k != id :: EntryInv(s, k))
    && (forall j | j in s.jobs && s.jobs[j].target.Some? ::
          var owner := s.jobs[j].target.value.entry;
          if owner == id then j == current else OwnedBy(s, j, owner))
    && (current in s.jobs ==> s.jobs[current].target.Some? && s.jobs[current].target.value.entry == id)
    && (forall k | k !in s.entries && k != id :: Balanced(s, k))
  }

  ghost predicate ApplyReady(s: Worker, id: nat, r: (Conn, Effect), job: Option<Job>, current: nat) {
    && InvExcept(s, id, current)
    && (current in s.jobs <==> job.Some?)
    && (job.Some? ==> job.value == s.jobs[current])
    && Keeps(r, id, job, current, s.nextJob, Count(s.opens, id), Count(s.closes, id), false)
  }

  lemma ApplyKeepsInv(s: Worker, id: nat, r: (Conn, Effect), job: Option<Job>, current: nat)
    requires ApplyReady(s, id, r, job, current)
    ensures Core(Apply(s, id, r))
  {
    OthersKept(s, id, r, current);
    SelfKept(s, id, r, job, current);
    OwnersKept(s, id, r, job, current);
    var t := Apply(s, id, r);
    forall k | k !in t.entries
      ensures Balanced(t, k)
    {
      assert Balanced(s, k);
    }
    assert t.nextJob > 0 && !t.dangling && t.nextEntry == s.nextEntry;
    assert forall j | j in t.jobs :: 0 < j < t.nextJob;
    assert forall k | k in t.entries :: k < t.nextEntry && EntryInv(t, k);
  }

  /** The job that will call the connection back after a handler. */
  function JobAfter(r: (Conn, Effect), id: nat, job: Option<Job>): Option<Job> {
    match r.1
    case Submit(op, callback) => if callback.None? then job else Some(NewJob(op, callback, id))
    case Redirect(_) => if job.None? then None else Some(Redirected(job.value, id))
    case _ => job
  }

  function ClosesOf(eff: Effect): nat {
    OneIf(eff.Submit? && eff.op.OpClose?)
  }

  lemma LocalKept(r: (Conn, Effect), id: nat, job: Option<Job>, current: nat, next: nat, opens: nat, closes: nat)
    requires Keeps(r, id, job, current, next, opens, closes, false)
    requires job.Some? ==> job.value.target.Some? && job.value.target.value.entry == id
    ensures var job' := JobAfter(r, id, job);
            && LocalInv(r.0, job', opens, closes + ClosesOf(r.1))
            && (job'.Some? ==> job'.value.target.Some? && job'.value.target.value.entry == id)
  {
  }

  lemma SelfKept(s: Worker, id: nat, r: (Conn, Effect), job: Option<Job>, current: nat)
    requires ApplyReady(s, id, r, job, current)
    ensures EntryInv(Apply(s, id, r), id)
  {
    LocalKept(r, id, job, current, s.nextJob, Count(s.opens, id), Count(s.closes, id));
    RecordedIsCurrent(s, id, r, job, current, JobAfter(r, id, job));
    CountsAfter(s, id, r);
  }

  lemma CountsAfter(s: Worker, id: nat, r: (Conn, Effect))
    ensures var t := Apply(s, id, r);
            && t.entries == s.entries[id := r.0] && t.opens == s.opens
            && Count(t.closes, id) == Count(s.closes, id) + ClosesOf(r.1)
  {
  }

  lemma RecordedIsCurrent(s: Worker, id: nat, r: (Conn, Effect), job: Option<Job>, current: nat,
                          job': Option<Job>)
    requires current in s.jobs <==> job.Some?
    requires job.Some? ==> job.value == s.jobs[current] && RecordedJob(r.0) == current && current != s.nextJob
    requires job'.Some? <==> r.0.state != Closed && RecordedJob(r.0) > 0
    requires 0 !in s.jobs && s.nextJob > 0
    requires match r.1
             case NoEffect => job' == job
             case Submit(op, callback) =>
               if callback.None? then job' == job
               else RecordedJob(r.0) == s.nextJob && job' == Some(NewJob(op, callback, id))
             case Redirect(j) => j == current && job.Some? && job' == Some(Redirected(job.value, id))
             case Abort => false
    ensures CurrentJob(Apply(s, id, r), id) == job'
  {
  }

  lemma OwnersKept(s: Worker, id: nat, r: (Conn, Effect), job: Option<Job>, current: nat)
    requires ApplyReady(s, id, r, job, current)
    ensures JobsOwned(Apply(s, id, r))
  {
    var t := Apply(s, id, r);
    assert t.entries[id] == r.0;
    forall j | j in t.jobs && t.jobs[j].target.Some?
      ensures OwnedBy(t, j, t.jobs[j].target.value.entry)
    {
      var owner := t.jobs[j].target.value.entry;
      if owner == id {
        if j in s.jobs {
          assert j == current && job.Some?;
        } else {
          assert j == s.nextJob && RecordedJob(r.0) == j;
        }
      } else {
        assert j in s.jobs && s.jobs[j] == t.jobs[j];
        assert OwnedBy(s, j, owner);
      }
    }
  }

  lemma SameEntry(s: Worker, t: Worker, k: nat)
    requires k in s.entries && k in t.entries && t.entries[k] == s.entries[k] && EntryInv(s, k)
    requires CurrentJob(t, k) == CurrentJob(s, k)
    requires Count(t.opens, k) == Count(s.opens, k) && Count(t.closes, k) == Count(s.closes, k)
    ensures EntryInv(t, k)
  {
  }

  /** What a handler of one connection leaves of other connections and other jobs. */
  lemma OthersAfter(s: Worker, id: nat, r: (Conn, Effect), current: nat, k: nat, j: nat)
    requires r.1.Redirect? ==> r.1.jobId == current
    requires k != id && j != current && j != s.nextJob
    ensures var t := Apply(s, id, r);
            && t.entries == s.entries[id := r.0] && t.opens == s.opens && Count(t.closes, k) == Count(s.closes, k)
            && (j in t.jobs <==> j in s.jobs) && (j in s.jobs ==> t.jobs[j] == s.jobs[j])
  {
  }

  lemma OthersKept(s: Worker, id: nat, r: (Conn, Effect), current: nat)
    requires InvExcept(s, id, current)
    requires r.1.Redirect? ==> r.1.jobId == current
    ensures forall k | k in s.entries && k != id :: EntryInv(Apply(s, id, r), k)
  {
    var t := Apply(s, id, r);
    forall k | k in s.entries && k != id
      ensures EntryInv(t, k)
    {
      var e := s.entries[k];
      assert EntryInv(s, k);
      if e.state != Closed && RecordedJob(e) > 0 {
        assert RecordedJob(e) in s.jobs;
        OthersAfter(s, id, r, current, k, RecordedJob(e));
      } else {
        OthersAfter(s, id, r, current, k, current + s.nextJob + 1);
      }
      SameEntry(s, t, k);
    }
  }
}
