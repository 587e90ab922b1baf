/** The pool of background jobs: a hash table of linked buckets that the network
    thread owns, a queue of jobs for the workers, and a queue of statuses back, with a
    pipe that wakes the network thread. */
module JobPool {

  const HASH_SIZE: nat := 0x400
  /** Job identifiers are 32 bits wide and skip zero. */
  const ID_PERIOD: nat := 0xFFFF_FFFF

  const STATUS_EINVAL: nat := 6
  const STATUS_NOTDONE: nat := 16

  datatype JobState = Disabled | Enabled | InProgress

  datatype Op = OpInval | OpPrefetch | OpDisk

  /** A job, as the bucket and the queue point to it. Jobs are numbered in the order of
      submission; the number stands for the address of the job. */
  datatype Job = Job(op: Op, jstate: JobState, callback: nat)

  datatype Item = Work(serial: nat) | Exit

  datatype WorkerState =
    | Waiting
    | Got(serial: nat)
    | Looked(serial: nat, disabled: bool)
    | Ran(serial: nat, status: nat)
    | Exited

  datatype Report = Report(serial: nat, status: nat)

  datatype Pool = Pool(
    buckets: seq<seq<nat>>,
    jobs: map<nat, Job>,          // submitted and not yet freed
    issued: nat,
    ops: seq<Op>,                 // of all jobs ever submitted
    queue: seq<Item>,
    workers: seq<WorkerState>,
    statuses: seq<Report>,
    pipe: nat,
    reports: multiset<nat>,       // statuses ever sent
    delivered: multiset<nat>,     // jobs ever called back and unlinked
    disk: set<nat>,               // jobs that reached the disk
    early: set<nat>,              // jobs disabled before a worker looked at them
    closing: bool)

  function IdOf(serial: nat): nat {
    serial % ID_PERIOD + 1
  }

  function Hash(serial: nat): nat {
    IdOf(serial) % HASH_SIZE
  }

  function New(workers: nat): Pool {
    Pool(seq(HASH_SIZE, _ => []), map[], 0, [], [], seq(workers, _ => Waiting), [], 0,
         multiset{}, multiset{}, {}, {}, false)
  }

  // ----- the hash table ------------------------------------------------------------

  /** A new job becomes the head of its bucket. */
  function Link(buckets: seq<seq<nat>>, serial: nat): seq<seq<nat>>
    requires |buckets| == HASH_SIZE
  {
    buckets[Hash(serial) := [serial] + buckets[Hash(serial)]]
  }

  /** The position in a bucket of the first job with an identifier. */
  function Find(bucket: seq<nat>, id: nat): (pos: nat)
    ensures pos <= |bucket|
    ensures pos < |bucket| ==> IdOf(bucket[pos]) == id
    ensures forall i | 0 <= i < pos :: IdOf(bucket[i]) != id
  {
    if bucket == [] || IdOf(bucket[0]) == id then 0 else 1 + Find(bucket[1..], id)
  }

  /** The found job is taken out by storing its successor in the place that pointed to
      it when it was found. That place is the head of the bucket, or the successor field
      of the job before it; the callback has run in between and may have put new jobs
      in front. */
  function Unlink(before: seq<nat>, pos: nat, now: seq<nat>): seq<nat>
    requires pos < |before| <= |now|
  {
    if pos == 0 then before[1..]
    else now[..|now| - |before| + pos] + before[pos + 1..]
  }

  // ----- steps ---------------------------------------------------------------------

  datatype Event =
    | Submit(op: Op, callback: nat)
    | Disable(id: nat)
    | ChangeCallback(id: nat, callback: nat)
    | Receive(news: seq<Job>)        // the jobs the callback submits
    | Get(w: nat)
    | Look(w: nat)
    | RunJob(w: nat, status: nat)
    | Send(w: nat)
    | Delete

  function AddJob(p: Pool, op: Op, callback: nat): Pool
    requires |p.buckets| == HASH_SIZE
  {
    p.(buckets := Link(p.buckets, p.issued),
       jobs := p.jobs[p.issued := Job(op, Enabled, callback)],
       issued := p.issued + 1,
       ops := p.ops + [op],
       queue := p.queue + [Work(p.issued)])
  }

  function AddJobs(p: Pool, news: seq<Job>): (r: Pool)
    requires |p.buckets| == HASH_SIZE
    ensures |r.buckets| == HASH_SIZE
    ensures forall h | 0 <= h < HASH_SIZE :: |p.buckets[h]| <= |r.buckets[h]|
    decreases |news|
  {
    if news == [] then p else AddJobs(AddJob(p, news[0].op, news[0].callback), news[1..])
  }

  /** The identifiers that the next jobs get are different and none of the given jobs has
      one of them. */
  ghost predicate Room(keys: set<nat>, issued: nat, n: nat) {
    n <= ID_PERIOD && forall s, t | s in keys && issued <= t < issued + n :: IdOf(s) != IdOf(t)
  }

  /** The serial of the job that the bucket of an identifier holds for it, if any. */
  function Lookup(p: Pool, id: nat): (r: seq<nat>)
    requires |p.buckets| == HASH_SIZE
  {
    var bucket := p.buckets[id % HASH_SIZE];
    var pos := Find(bucket, id);
    if pos < |bucket| then [bucket[pos]] else []
  }

  function Disabling(job: Job): Job {
    if job.jstate == Enabled then job.(jstate := Disabled) else job
  }

  function DisableJob(p: Pool, id: nat): Pool
    requires |p.buckets| == HASH_SIZE
  {
    var found := Lookup(p, id);
    if found == [] || found[0] !in p.jobs then p
    else
      var s := found[0];
      p.(jobs := p.jobs[s := Disabling(p.jobs[s])],
         early := if p.jobs[s].jstate == Enabled then p.early + {s} else p.early)
  }

  function ChangeJobCallback(p: Pool, id: nat, callback: nat): Pool
    requires |p.buckets| == HASH_SIZE
  {
    var found := Lookup(p, id);
    if found == [] || found[0] !in p.jobs then p
    else p.(jobs := p.jobs[found[0] := p.jobs[found[0]].(callback := callback)])
  }

  /** One status is taken, the callback of its job runs, and the job is unlinked. */
  function ReceiveStatus(p: Pool, news: seq<Job>): Pool
    requires |p.buckets| == HASH_SIZE && p.statuses != []
  {
    var id := IdOf(p.statuses[0].serial);
    var h := id % HASH_SIZE;
    var before := p.buckets[h];
    var pos := Find(before, id);
    var q := p.(statuses := p.statuses[1..],
                pipe := if |p.statuses| == 1 && p.pipe > 0 then p.pipe - 1 else p.pipe);
    if pos >= |before| then q
    else
      var s := before[pos];
      var a := AddJobs(q, news);
      a.(buckets := a.buckets[h := Unlink(before, pos, a.buckets[h])],
         jobs := a.jobs - {s},
         delivered := a.delivered + multiset{s})
  }

  /** What a worker does with a job it has looked at. */
  predicate TouchesDisk(op: Op, disabled: bool) {
    op.OpPrefetch? || (op.OpDisk? && !disabled)
  }

  predicate StatusAllowed(op: Op, disabled: bool, status: nat) {
    && (op.OpInval? ==> status == STATUS_EINVAL)
    && (op.OpDisk? && disabled ==> status == STATUS_NOTDONE)
  }

  predicate Possible(p: Pool, ev: Event) {
    && |p.buckets| == HASH_SIZE
    && match ev
       case Submit(_, _) => !p.closing
       case Disable(_) => true
       case ChangeCallback(_, _) => true
       case Receive(news) =>
         p.pipe > 0 && p.statuses != [] && (p.closing ==> news == [])
       case Get(w) => w < |p.workers| && p.workers[w].Waiting? && p.queue != []
       case Look(w) => w < |p.workers| && p.workers[w].Got? && p.workers[w].serial in p.jobs
       case RunJob(w, status) =>
         && w < |p.workers| && p.workers[w].Looked? && p.workers[w].serial < |p.ops|
         && StatusAllowed(p.ops[p.workers[w].serial], p.workers[w].disabled, status)
       case Send(w) => w < |p.workers| && p.workers[w].Ran?
       case Delete => !p.closing
  }

  function Step(p: Pool, ev: Event): Pool
    requires Possible(p, ev)
  {
    match ev
    case Submit(op, callback) => AddJob(p, op, callback)
    case Disable(id) => DisableJob(p, id)
    case ChangeCallback(id, callback) => ChangeJobCallback(p, id, callback)
    case Receive(news) => ReceiveStatus(p, news)
    case Get(w) =>
      p.(queue := p.queue[1..],
         workers := p.workers[w := if p.queue[0].Exit? then Exited else Got(p.queue[0].serial)])
    case Look(w) => LookAt(p, w)
    case RunJob(w, status) =>
      var s := p.workers[w].serial;
      p.(disk := if TouchesDisk(p.ops[s], p.workers[w].disabled) then p.disk + {s} else p.disk,
         workers := p.workers[w := Ran(s, status)])
    case Send(w) =>
      p.(pipe := if p.statuses == [] then p.pipe + 1 else p.pipe,
         statuses := p.statuses + [Report(p.workers[w].serial, p.workers[w].status)],
         reports := p.reports + multiset{p.workers[w].serial},
         workers := p.workers[w := Waiting])
    case Delete => StartDelete(p)
  }

  /** A worker reads the state of its job under the lock, and marks it started. */
  function LookAt(p: Pool, w: nat): Pool
    requires w < |p.workers| && p.workers[w].Got? && p.workers[w].serial in p.jobs
  {
    var s := p.workers[w].serial;
    var job := p.jobs[s];
    p.(jobs := p.jobs[s := job.(jstate := if job.jstate == Enabled then InProgress else job.jstate)],
       workers := p.workers[w := Looked(s, job.jstate == Disabled)])
  }

  /** One exit token for each worker. */
  function StartDelete(p: Pool): Pool {
    p.(queue := p.queue + seq(|p.workers|, _ => Exit), closing := true)
  }

  /** The callback of the job whose status comes next puts a job at the head of that
      job's bucket while the job is at the head itself. */
  predicate Clash(p: Pool, ev: Event)
    requires Possible(p, ev)
  {
    && ev.Receive?
    && (exists s | p.issued <= s < p.issued + |ev.news| :: Hash(s) == Hash(p.statuses[0].serial))
    && Find(p.buckets[Hash(p.statuses[0].serial)], IdOf(p.statuses[0].serial)) == 0
  }

  /** A new job gets the identifier of a job that is still outstanding. The job that is
      called back is freed in the same step, so its own identifier may come round. */
  ghost predicate Collides(p: Pool, ev: Event)
    requires Possible(p, ev)
  {
    match ev
    case Submit(_, _) => !Room(p.jobs.Keys, p.issued, 1)
    case Receive(news) => !Room(p.jobs.Keys - {p.statuses[0].serial}, p.issued, |news|)
    case _ => false
  }

  /** A run; a smooth one has neither clashes nor collisions. */
  ghost predicate IsRun(p: Pool, evs: seq<Event>, smooth: bool)
    decreases |evs|
  {
    evs == []
    || (Possible(p, evs[0]) && (smooth ==> !Clash(p, evs[0]) && !Collides(p, evs[0]))
        && IsRun(Step(p, evs[0]), evs[1..], smooth))
  }

  ghost function After(p: Pool, evs: seq<Event>, smooth: bool): Pool
    requires IsRun(p, evs, smooth)
    decreases |evs|
  {
    if evs == [] then p else After(Step(p, evs[0]), evs[1..], smooth)
  }
}
