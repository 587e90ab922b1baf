/** What every run of the pool keeps, whatever happens to its table: jobs dropped from their
    bucket and identifiers used twice included. */
module JobPoolRuns {
  import opened JobPool
  import opened JobPoolSafety

  /** All jobs ever submitted. */
  function Issued(n: nat): multiset<nat> {
    if n == 0 then multiset{} else Issued(n - 1) + multiset{n - 1}
  }

  lemma {:induction false} IssuedOnce(n: nat, s: nat)
    ensures Issued(n)[s] == if s < n then 1 else 0
  {
    if n > 0 {
      IssuedOnce(n - 1, s);
    }
  }

  /** Every job ever submitted waits in the queue, is with a worker, or has been reported. */
  ghost predicate Conserved(p: Pool) {
    QueueJobs(p.queue) + WorkerJobs(p.workers) + p.reports == Issued(p.issued)
  }

  ghost predicate WorkerInTime(p: Pool, w: WorkerState) {
    match w
    case Got(s) => s < p.issued
    case Looked(s, disabled) =>
      s < p.issued && (s in p.early ==> disabled) && (s in p.jobs ==> p.jobs[s].jstate != Enabled)
    case Ran(s, _) => s < p.issued && (s in p.jobs ==> p.jobs[s].jstate != Enabled)
    case _ => true
  }

  /** A job disabled in time does not reach the disk. */
  ghost predicate InTime(p: Pool) {
    && (forall s | s in p.jobs :: s < p.issued)
    && (forall s | s in p.early :: s < |p.ops| && (p.ops[s].OpDisk? ==> s !in p.disk))
    && (forall s | s in p.early && s in p.jobs :: p.jobs[s].jstate == JobState.Disabled)
    && (forall s | s in p.jobs && p.jobs[s].jstate == Enabled :: s !in p.disk)
    && (forall s | s in p.disk :: s < p.issued && s < |p.ops| && !p.ops[s].OpInval?)
    && (forall w | 0 <= w < |p.workers| :: WorkerInTime(p, p.workers[w]))
    && (forall i | 0 <= i < |p.queue| && p.queue[i].Work? :: p.queue[i].serial < p.issued)
  }

  ghost predicate Always(p: Pool) {
    |p.buckets| == HASH_SIZE && |p.ops| == p.issued && Piped(p) && Ending(p) && Conserved(p) && InTime(p)
  }

  // ----- submitting and receiving -----------------------------------------------------------------

  lemma AddJobAlways(p: Pool, op: Op, callback: nat)
    requires Always(p) && !p.closing
    ensures Always(AddJob(p, op, callback))
  {
    AddJobEnding(p, op, callback);
    AddJobConserved(p, op, callback);
    AddJobInTime(p, op, callback);
  }

  lemma AddJobConserved(p: Pool, op: Op, callback: nat)
    requires |p.buckets| == HASH_SIZE && Conserved(p)
    ensures Conserved(AddJob(p, op, callback))
  {
    QueueAppend(p.queue, Work(p.issued));
  }

  lemma AddJobInTime(p: Pool, op: Op, callback: nat)
    requires |p.buckets| == HASH_SIZE && |p.ops| == p.issued && InTime(p)
    ensures InTime(AddJob(p, op, callback))
  {
    var q := AddJob(p, op, callback);
    forall w | 0 <= w < |q.workers|
      ensures WorkerInTime(q, q.workers[w])
    {
      assert WorkerInTime(p, p.workers[w]);
    }
  }

  lemma {:induction false} AddJobsAlways(p: Pool, news: seq<Job>)
    requires Always(p) && (p.closing ==> news == [])
    ensures Always(AddJobs(p, news))
    decreases |news|
  {
    if news != [] {
      AddJobAlways(p, news[0].op, news[0].callback);
      AddJobsAlways(AddJob(p, news[0].op, news[0].callback), news[1..]);
    }
  }

  lemma PoppedAlways(p: Pool)
    requires Always(p) && p.statuses != []
    ensures Always(Popped(p))
  {
    var q := Popped(p);
    forall w | 0 <= w < |q.workers|
      ensures WorkerInTime(q, q.workers[w])
    {
      assert WorkerInTime(p, p.workers[w]);
    }
  }

  /** Whichever job is freed, and however the buckets are linked. */
  lemma FreedAlways(a: Pool, q: Pool, s: nat)
    requires Always(a) && |q.buckets| == HASH_SIZE
    requires q == a.(buckets := q.buckets, jobs := a.jobs - {s}, delivered := q.delivered)
    ensures Always(q)
  {
    forall w | 0 <= w < |q.workers|
      ensures WorkerInTime(q, q.workers[w])
    {
      assert WorkerInTime(a, a.workers[w]);
    }
  }

  lemma ReceiveAlways(p: Pool, news: seq<Job>)
    requires Always(p) && Possible(p, Receive(news))
    ensures Always(ReceiveStatus(p, news))
  {
    PoppedAlways(p);
    AddJobsAlways(Popped(p), news);
    var id := IdOf(p.statuses[0].serial);
    var before := p.buckets[id % HASH_SIZE];
    var pos := Find(before, id);
    if pos < |before| {
      FreedAlways(AddJobs(Popped(p), news), ReceiveStatus(p, news), before[pos]);
    }
  }

  // ----- the other steps ------------------------------------------------------------------------------

  lemma ChangedInTime(p: Pool, q: Pool, s: nat, job: Job)
    requires InTime(p) && |p.ops| == p.issued && s in p.jobs && s < p.issued && MayBecome(p.jobs[s], job)
    requires q == p.(jobs := p.jobs[s := job],
                     early := if job.jstate == p.jobs[s].jstate then p.early else p.early + {s})
    ensures InTime(q)
  {
    forall w | 0 <= w < |q.workers|
      ensures WorkerInTime(q, q.workers[w])
    {
      assert WorkerInTime(p, p.workers[w]);
    }
  }

  lemma ChangedAlways(p: Pool, s: nat, job: Job)
    requires Always(p) && s in p.jobs && MayBecome(p.jobs[s], job)
    ensures Always(p.(jobs := p.jobs[s := job],
                      early := if job.jstate == p.jobs[s].jstate then p.early else p.early + {s}))
  {
    ChangedInTime(p, p.(jobs := p.jobs[s := job],
                        early := if job.jstate == p.jobs[s].jstate then p.early else p.early + {s}), s, job);
  }

  lemma DisableAlways(p: Pool, id: nat)
    requires Always(p)
    ensures Always(DisableJob(p, id))
  {
    var found := Lookup(p, id);
    if found != [] && found[0] in p.jobs {
      ChangedAlways(p, found[0], Disabling(p.jobs[found[0]]));
    }
  }

  lemma ChangeAlways(p: Pool, id: nat, callback: nat)
    requires Always(p)
    ensures Always(ChangeJobCallback(p, id, callback))
  {
    var found := Lookup(p, id);
    if found != [] && found[0] in p.jobs {
      ChangedAlways(p, found[0], p.jobs[found[0]].(callback := callback));
    }
  }

  /** A worker changes, and with it nothing that matters to the others. */
  lemma WorkerInTimeAfter(p: Pool, q: Pool, w: nat)
    requires InTime(p) && w < |p.workers| == |q.workers| && q.workers == p.workers[w := q.workers[w]]
    requires WorkerInTime(q, q.workers[w])
    requires q.jobs == p.jobs && q.early == p.early && q.disk == p.disk && q.ops == p.ops && q.issued == p.issued
    requires q.queue == p.queue || (p.queue != [] && q.queue == p.queue[1..])
    ensures InTime(q)
  {
    forall v | 0 <= v < |q.workers|
      ensures WorkerInTime(q, q.workers[v])
    {
      if v != w {
        assert WorkerInTime(p, p.workers[v]);
      }
    }
  }

  lemma GetAlways(p: Pool, w: nat)
    requires Always(p) && Possible(p, Get(w))
    ensures Always(Step(p, Get(w)))
  {
    var q := Step(p, Get(w));
    GetEnding(p, w);
    GetConserved(p, q, w);
    WorkerInTimeAfter(p, q, w);
  }

  lemma GetConserved(p: Pool, q: Pool, w: nat)
    requires Conserved(p) && Possible(p, Get(w)) && q == Step(p, Get(w))
    ensures Conserved(q)
  {
    WorkerUpdate(p.workers, w, q.workers[w]);
    var item, rest, ws := ItemJob(p.queue[0]), QueueJobs(p.queue[1..]), WorkerJobs(p.workers);
    assert WorkerJobs(q.workers) == ws + item;
    ItemMoves(item, rest, ws, p.reports);
  }

  lemma ItemMoves(item: multiset<nat>, rest: multiset<nat>, ws: multiset<nat>, reports: multiset<nat>)
    ensures rest + (ws + item) + reports == (item + rest) + ws + reports
  {
  }

  /** A worker goes on with the job it has. */
  lemma GoesOn(p: Pool, q: Pool, w: nat, x: WorkerState)
    requires Ending(p) && Conserved(p) && w < |p.workers| && q.workers == p.workers[w := x]
    requires q.queue == p.queue && q.reports == p.reports && q.issued == p.issued && q.closing == p.closing
    requires WorkerJob(x) == WorkerJob(p.workers[w]) && !x.Exited? && !p.workers[w].Exited?
    ensures Ending(q) && Conserved(q)
  {
    WorkerUpdate(p.workers, w, x);
    SameLeft(WorkerJobs(q.workers), WorkerJobs(p.workers), WorkerJob(x));
    ExitedUpdate(p.workers, w, x);
  }

  lemma LookAlways(p: Pool, w: nat, q: Pool)
    requires Always(p) && Possible(p, Look(w)) && q == LookAt(p, w)
    ensures Always(q)
  {
    GoesOn(p, q, w, q.workers[w]);
    LookInTime(p, w, q);
  }

  lemma LookInTime(p: Pool, w: nat, q: Pool)
    requires InTime(p) && Possible(p, Look(w)) && q == LookAt(p, w)
    ensures InTime(q)
  {
    forall v | 0 <= v < |q.workers|
      ensures WorkerInTime(q, q.workers[v])
    {
      assert WorkerInTime(p, p.workers[v]);
    }
  }

  lemma RunAlways(p: Pool, w: nat, status: nat)
    requires Always(p) && Possible(p, RunJob(w, status))
    ensures Always(Step(p, RunJob(w, status)))
  {
    var q := Step(p, RunJob(w, status));
    GoesOn(p, q, w, q.workers[w]);
    RunInTime(p, w, status, q);
  }

  lemma RunInTime(p: Pool, w: nat, status: nat, q: Pool)
    requires InTime(p) && Possible(p, RunJob(w, status)) && q == Step(p, RunJob(w, status))
    ensures InTime(q)
  {
    assert WorkerInTime(p, p.workers[w]);
    forall v | 0 <= v < |q.workers|
      ensures WorkerInTime(q, q.workers[v])
    {
      assert WorkerInTime(p, p.workers[v]);
    }
  }

  lemma SendAlways(p: Pool, w: nat)
    requires Always(p) && Possible(p, Send(w))
    ensures Always(Step(p, Send(w)))
  {
    var q := Step(p, Send(w));
    ExitedUpdate(p.workers, w, Waiting);
    SendConserved(p, q, w);
    WorkerInTimeAfter(p, q, w);
  }

  lemma SendConserved(p: Pool, q: Pool, w: nat)
    requires Conserved(p) && Possible(p, Send(w)) && q == Step(p, Send(w))
    ensures Conserved(q)
  {
    var s := p.workers[w].serial;
    WorkerUpdate(p.workers, w, Waiting);
    assert WorkerJobs(q.workers) + multiset{s} == WorkerJobs(p.workers);
    MoveOne(QueueJobs(p.queue), WorkerJobs(q.workers), p.reports, multiset{}, multiset{s});
  }

  lemma DeleteAlways(p: Pool, q: Pool)
    requires Always(p) && !p.closing && q == StartDelete(p)
    ensures Always(q)
  {
    DeleteEnding(p, q);
    DeleteConserved(p, q);
    DeleteInTime(p, q);
  }

  lemma DeleteConserved(p: Pool, q: Pool)
    requires Conserved(p) && q == StartDelete(p)
    ensures Conserved(q)
  {
    ExitTokens(|p.workers|);
    QueueConcat(p.queue, seq(|p.workers|, _ => Exit));
  }

  lemma DeleteInTime(p: Pool, q: Pool)
    requires InTime(p) && q == StartDelete(p)
    ensures InTime(q)
  {
    forall w | 0 <= w < |q.workers|
      ensures WorkerInTime(q, q.workers[w])
    {
      assert WorkerInTime(p, p.workers[w]);
    }
  }

  /** Every step keeps this, also one that drops a job from its bucket or uses an identifier
      a second time. */
  lemma StepAlways(p: Pool, ev: Event)
    requires Always(p) && Possible(p, ev)
    ensures Always(Step(p, ev))
  {
    match ev {
      case Submit(op, callback) => AddJobAlways(p, op, callback);
      case Disable(id) => DisableAlways(p, id);
      case ChangeCallback(id, callback) => ChangeAlways(p, id, callback);
      case Receive(news) => ReceiveAlways(p, news);
      case Get(w) => GetAlways(p, w);
      case Look(w) => LookAlways(p, w, LookAt(p, w));
      case RunJob(w, status) => RunAlways(p, w, status);
      case Send(w) => SendAlways(p, w);
      case Delete => DeleteAlways(p, StartDelete(p));
    }
  }

  lemma {:induction false} RunIsAlways(p: Pool, evs: seq<Event>)
    requires Always(p) && IsRun(p, evs, false)
    ensures Always(After(p, evs, false))
    decreases |evs|
  {
    if evs != [] {
      StepAlways(p, evs[0]);
      RunIsAlways(Step(p, evs[0]), evs[1..]);
    }
  }

  lemma {:induction false} SmoothIsRun(p: Pool, evs: seq<Event>)
    requires IsRun(p, evs, true)
    ensures IsRun(p, evs, false) && After(p, evs, false) == After(p, evs, true)
    decreases |evs|
  {
    if evs != [] {
      SmoothIsRun(Step(p, evs[0]), evs[1..]);
    }
  }

  lemma NewAlways(workers: nat)
    ensures Always(New(workers))
  {
    AllWaiting(workers);
  }

  // ----- theorems ------------------------------------------------------------------------------------

  /** In every run: a job that was submitted is in the queue, with one worker, or reported, and
      at one of these places only; so it is never run or reported twice. The pipe holds a byte
      exactly when a status waits. */
  lemma EveryJobOnce(workers: nat, evs: seq<Event>, s: nat)
    requires IsRun(New(workers), evs, false)
    ensures var p := After(New(workers), evs, false);
            && QueueJobs(p.queue)[s] + WorkerJobs(p.workers)[s] + p.reports[s] == (if s < p.issued then 1 else 0)
            && p.pipe == (if p.statuses == [] then 0 else 1)
  {
    NewAlways(workers);
    RunIsAlways(New(workers), evs);
    var p := After(New(workers), evs, false);
    IssuedOnce(p.issued, s);
    assert Issued(p.issued)[s] == (QueueJobs(p.queue) + WorkerJobs(p.workers) + p.reports)[s];
  }

  /** In every run: a job that was disabled before a worker looked at it does not reach the
      disk, unless it is a prefetch. */
  lemma DisabledInTime(workers: nat, evs: seq<Event>, s: nat)
    requires IsRun(New(workers), evs, false)
    ensures var p := After(New(workers), evs, false);
            s in p.early ==> s < |p.ops| && (s in p.disk ==> p.ops[s].OpPrefetch?)
  {
    NewAlways(workers);
    RunIsAlways(New(workers), evs);
  }

  lemma {:induction false} AllExited(ws: seq<WorkerState>)
    requires ExitedWorkers(ws) == |ws|
    ensures WorkerJobs(ws) == multiset{}
  {
    if ws != [] {
      ExitedAtMost(ws[1..]);
      AllExited(ws[1..]);
    }
  }

  lemma {:induction false} ExitedAtMost(ws: seq<WorkerState>)
    ensures ExitedWorkers(ws) <= |ws|
  {
    if ws != [] {
      ExitedAtMost(ws[1..]);
    }
  }

  /** In every run: when all workers have left, every job ever submitted has been reported,
      once, and none is in the queue. */
  lemma NothingLeftBehind(workers: nat, evs: seq<Event>, s: nat)
    requires IsRun(New(workers), evs, false)
    ensures var p := After(New(workers), evs, false);
            p.workers != [] && ExitedWorkers(p.workers) == |p.workers|
            ==> p.queue == [] && (s < p.issued ==> p.reports[s] == 1)
  {
    NewAlways(workers);
    RunIsAlways(New(workers), evs);
    EveryJobOnce(workers, evs, s);
    var p := After(New(workers), evs, false);
    if p.workers != [] && ExitedWorkers(p.workers) == |p.workers| {
      NoExits(p.queue);
      AllExited(p.workers);
    }
  }
}
