/** The pool of jobs as the network thread updates it in place. Each method is proved
    against the step of the pool that it performs. */
module JobTable {
  import opened JobPool
  import opened JobPoolSafety
  import opened JobPoolRuns

  const LAST_ID: nat := 0xFFFF_FFFF

  /** All the statuses that wait are received, one after the other. */
  ghost function ReceiveAll(p: Pool, callbacks: seq<seq<Job>>): Pool
    requires |p.buckets| == HASH_SIZE && |p.statuses| == |callbacks|
    decreases |callbacks|
  {
    if callbacks == [] then p
    else
      ReceiveStays(p, callbacks[0]);
      ReceiveAll(ReceiveStatus(p, callbacks[0]), callbacks[1..])
  }

  lemma ReceiveStays(p: Pool, news: seq<Job>)
    requires |p.buckets| == HASH_SIZE && p.statuses != []
    ensures |ReceiveStatus(p, news).buckets| == HASH_SIZE
    ensures ReceiveStatus(p, news).statuses == p.statuses[1..]
  {
    var q := p.(statuses := p.statuses[1..],
                pipe := if |p.statuses| == 1 && p.pipe > 0 then p.pipe - 1 else p.pipe);
    AddJobsStatuses(q, news);
  }

  lemma {:induction false} AddJobsStatuses(p: Pool, news: seq<Job>)
    requires |p.buckets| == HASH_SIZE
    ensures AddJobs(p, news).statuses == p.statuses
    decreases |news|
  {
    if news != [] {
      AddJobsStatuses(AddJob(p, news[0].op, news[0].callback), news[1..]);
    }
  }

  lemma {:induction false} AddJobsSnoc(p: Pool, news: seq<Job>, i: nat)
    requires |p.buckets| == HASH_SIZE && i < |news|
    ensures AddJobs(p, news[..i + 1])
         == AddJob(AddJobs(p, news[..i]), news[i].op, news[i].callback)
    decreases i
  {
    if i == 0 {
      assert news[..1][1..] == [];
    } else {
      var q := AddJob(p, news[0].op, news[0].callback);
      AddJobsSnoc(q, news[1..], i - 1);
      assert news[..i + 1][1..] == news[1..][..i] && news[..i][1..] == news[1..][..i - 1];
    }
  }

  /** At most one job of a bucket has a given identifier. */
  lemma BucketIds(p: Pool, id: nat)
    requires Numbered(p) && Linked(p)
    ensures var bucket := p.buckets[id % HASH_SIZE];
            var found := Find(bucket, id);
            && (forall i | 0 <= i < |bucket| && i != found :: IdOf(bucket[i]) != id)
            && (forall i | 0 <= i < |bucket| :: bucket[i] in p.jobs)
  {
    var bucket := p.buckets[id % HASH_SIZE];
    var found := Find(bucket, id);
    assert BucketOk(bucket, p.jobs.Keys, id % HASH_SIZE);
    forall i | found < i < |bucket|
      ensures IdOf(bucket[i]) != id
    {
      assert bucket[found] > bucket[i] && bucket[found] in p.jobs && bucket[i] in p.jobs;
    }
  }

  class JobTable {
    var nextJobId: nat
    var buckets: seq<seq<nat>>
    var jobs: map<nat, Job>
    var queue: seq<Item>
    var statuses: seq<Report>
    var pipe: nat
    var issued: nat                // names the jobs; stands for their addresses
    ghost var history: Pool        // the parts of the pool that other threads own

    ghost function View(): Pool
      reads this
    {
      history.(buckets := buckets, jobs := jobs, queue := queue, statuses := statuses,
               pipe := pipe, issued := issued)
    }

    ghost predicate Valid()
      reads this
    {
      nextJobId == IdOf(issued) && |buckets| == HASH_SIZE
    }

    constructor (ghost workers: nat)
      ensures Valid() && View() == New(workers)
    {
      nextJobId := 1;
      buckets := seq(HASH_SIZE, _ => []);
      jobs := map[];
      queue := [];
      statuses := [];
      pipe := 0;
      issued := 0;
      history := New(workers);
    }

    /** The identifier counter wraps from its last value to one. */
    method JobNew(op: Op, callback: nat) returns (id: nat)
      requires Valid()
      modifies this
      ensures Valid() && View() == AddJob(old(View()), op, callback)
      ensures id == IdOf(old(issued)) && 1 <= id <= LAST_ID
    {
      id := nextJobId;
      var h := id % HASH_SIZE;
      var serial := issued;
      buckets := buckets[h := [serial] + buckets[h]];
      jobs := jobs[serial := Job(op, Enabled, callback)];
      queue := queue + [Work(serial)];
      issued := issued + 1;
      nextJobId := (nextJobId + 1) % (LAST_ID + 1);
      if nextJobId == 0 {
        nextJobId := 1;
      }
      history := history.(ops := history.ops + [op]);
    }

    /** The search visits the whole bucket; the identifiers in a bucket are distinct, so
        it touches the one job that a lookup finds. */
    method DisableJob(id: nat)
      requires Valid() && Numbered(View()) && Linked(View())
      modifies this
      ensures Valid() && View() == JobPool.DisableJob(old(View()), id)
    {
      var bucket := buckets[id % HASH_SIZE];
      ghost var found := Find(bucket, id);
      BucketIds(View(), id);
      for i := 0 to |bucket|
        invariant Valid() && buckets == old(buckets)
        invariant View() == if i <= found then old(View()) else JobPool.DisableJob(old(View()), id)
      {
        if IdOf(bucket[i]) == id && bucket[i] in jobs {
          DisableOne(bucket[i]);
        }
      }
    }

    method DisableOne(s: nat)
      requires Valid() && s in jobs
      modifies `jobs, `history
      ensures Valid()
      ensures View() == old(View()).(jobs := old(jobs)[s := Disabling(old(jobs)[s])],
                                     early := if old(jobs)[s].jstate == Enabled then old(View()).early + {s}
                                              else old(View()).early)
    {
      var job := jobs[s];
      if job.jstate == Enabled {
        jobs := jobs[s := job.(jstate := JobState.Disabled)];
        history := history.(early := history.early + {s});
      } else {
        assert jobs == jobs[s := job];
      }
    }

    method ChangeCallback(id: nat, callback: nat)
      requires Valid() && Numbered(View()) && Linked(View())
      modifies this
      ensures Valid() && View() == ChangeJobCallback(old(View()), id, callback)
    {
      var bucket := buckets[id % HASH_SIZE];
      ghost var found := Find(bucket, id);
      BucketIds(View(), id);
      for i := 0 to |bucket|
        invariant Valid() && buckets == old(buckets)
        invariant View()
               == if i <= found then old(View()) else ChangeJobCallback(old(View()), id, callback)
      {
        if IdOf(bucket[i]) == id && bucket[i] in jobs {
          jobs := jobs[bucket[i] := jobs[bucket[i]].(callback := callback)];
        }
      }
    }

    /** One status is taken off the queue; the pipe is read when it was the last. */
    method ReceiveOne() returns (id: nat, more: bool)
      requires Valid() && statuses != [] && pipe > 0
      modifies this
      ensures Valid() && View() == Popped(old(View()))
      ensures id == IdOf(old(statuses)[0].serial) && more == (|old(statuses)| > 1)
    {
      id := IdOf(statuses[0].serial);
      statuses := statuses[1..];
      more := statuses != [];
      if !more {
        pipe := pipe - 1;
      }
    }

    /** The callback of a job: it submits jobs. */
    method Callback(news: seq<Job>)
      requires Valid()
      modifies this
      ensures Valid() && View() == AddJobs(old(View()), news)
    {
      assert news[..0] == [];
      for i := 0 to |news|
        invariant Valid() && View() == AddJobs(old(View()), news[..i])
      {
        AddJobsSnoc(old(View()), news, i);
        var _ := JobNew(news[i].op, news[i].callback);
      }
      assert news[..|news|] == news;
    }

    /** The place of the job with an identifier, or the end of the bucket. */
    method Search(bucket: seq<nat>, id: nat) returns (pos: nat)
      ensures pos == Find(bucket, id)
    {
      pos := 0;
      while pos < |bucket| && IdOf(bucket[pos]) != id
        invariant pos <= Find(bucket, id)
      {
        pos := pos + 1;
      }
    }

    /** The place that pointed to a job gets its successor: the head of the bucket, or the
        job before it. */
    method UnlinkAt(h: nat, before: seq<nat>, pos: nat)
      requires h < |buckets| && pos < |before| <= |buckets[h]|
      modifies `buckets
      ensures buckets == old(buckets)[h := Unlink(before, pos, old(buckets)[h])]
    {
      var now := buckets[h];
      if pos == 0 {
        buckets := buckets[h := before[1..]];
      } else {
        buckets := buckets[h := now[..|now| - |before| + pos] + before[pos + 1..]];
      }
    }

    /** The job with the identifier of the status is looked for; its callback runs; then
        the place that pointed to the job when it was found gets the job's successor. */
    method CheckJob(news: seq<Job>) returns (more: bool)
      requires Valid() && statuses != [] && pipe > 0
      modifies this
      ensures Valid() && View() == ReceiveStatus(old(View()), news)
      ensures more == (|old(statuses)| > 1)
    {
      var id;
      id, more := ReceiveOne();
      var h := id % HASH_SIZE;
      var before := buckets[h];
      var pos := Search(before, id);
      if pos < |before| {
        var serial := before[pos];
        Callback(news);
        UnlinkAt(h, before, pos);
        jobs := jobs - {serial};
        history := history.(delivered := history.delivered + multiset{serial});
      }
    }

    /** All waiting statuses are received; the pipe is empty again afterwards. */
    method CheckJobs(callbacks: seq<seq<Job>>)
      requires Valid() && statuses != [] && pipe == 1 && |callbacks| == |statuses|
      modifies this
      ensures Valid() && View() == ReceiveAll(old(View()), callbacks)
      ensures statuses == [] && pipe == 0
    {
      var i, more := 0, true;
      assert callbacks[0..] == callbacks;
      while more
        invariant Valid() && 0 <= i <= |callbacks| && |statuses| == |callbacks| - i
        invariant more == (statuses != []) && pipe == (if more then 1 else 0)
        invariant ReceiveAll(View(), callbacks[i..]) == ReceiveAll(old(View()), callbacks)
        decreases |callbacks| - i
      {
        ReceiveStays(View(), callbacks[i]);
        ReceivePipe(View(), callbacks[i]);
        more := CheckJob(callbacks[i]);
        assert callbacks[i..][1..] == callbacks[i + 1..];
        i := i + 1;
      }
    }
  }

  lemma ReceivePipe(p: Pool, news: seq<Job>)
    requires |p.buckets| == HASH_SIZE && p.statuses != [] && p.pipe > 0
    ensures ReceiveStatus(p, news).pipe == (if |p.statuses| == 1 then p.pipe - 1 else p.pipe)
  {
    AddJobsPipe(p.(statuses := p.statuses[1..],
                   pipe := if |p.statuses| == 1 && p.pipe > 0 then p.pipe - 1 else p.pipe), news);
  }

  lemma {:induction false} AddJobsPipe(p: Pool, news: seq<Job>)
    requires |p.buckets| == HASH_SIZE
    ensures AddJobs(p, news).pipe == p.pipe
    decreases |news|
  {
    if news != [] {
      AddJobsPipe(AddJob(p, news[0].op, news[0].callback), news[1..]);
    }
  }

  // ----- deleting the pool ------------------------------------------------------------------

  lemma EmptyReceive(p: Pool, news: seq<Job>)
    requires Inv(p) && p.statuses != [] && news == []
    ensures var q := ReceiveStatus(p, news);
            Inv(q) && q.queue == p.queue && q.workers == p.workers && q.issued == p.issued
  {
    assert Possible(p, Receive(news));
    ReceiveKeeps(p, news);
  }

  lemma FirstReceived(p: Pool, callbacks: seq<seq<Job>>) returns (q: Pool)
    requires Inv(p) && |p.statuses| == |callbacks| > 0 && callbacks[0] == []
    ensures Inv(q) && |q.statuses| == |callbacks| - 1
    ensures q.queue == p.queue && q.workers == p.workers && q.issued == p.issued
    ensures ReceiveAll(p, callbacks) == ReceiveAll(q, callbacks[1..])
  {
    q := ReceiveStatus(p, callbacks[0]);
    EmptyReceive(p, callbacks[0]);
    ReceiveStays(p, callbacks[0]);
  }

  /** The callbacks that run while the pool is deleted submit nothing. */
  lemma {:induction false} ReceiveAllKeeps(p: Pool, callbacks: seq<seq<Job>>, r: Pool)
    requires Inv(p) && |p.statuses| == |callbacks| && r == ReceiveAll(p, callbacks)
    requires forall i | 0 <= i < |callbacks| :: callbacks[i] == []
    ensures Inv(r)
    ensures r.statuses == [] && r.queue == p.queue && r.workers == p.workers && r.issued == p.issued
    decreases |callbacks|
  {
    if callbacks != [] {
      var q := FirstReceived(p, callbacks);
      ReceiveAllKeeps(q, callbacks[1..], r);
    }
  }

  /** When the pool is deleted, the workers leave and the waiting statuses are received.
      In every smooth run, every job ever submitted has then been called back
      exactly once, and none is left in memory. */
  lemma DeletedPoolIsEmpty(workers: nat, evs: seq<Event>, callbacks: seq<seq<Job>>, s: nat)
    requires workers > 0 && IsRun(New(workers), evs, true)
    requires |After(New(workers), evs, true).statuses| == |callbacks|
    requires |After(New(workers), evs, true).buckets| == HASH_SIZE
    requires forall i | 0 <= i < |callbacks| :: callbacks[i] == []
    requires var p := After(New(workers), evs, true);
             p.workers != [] && ExitedWorkers(p.workers) == |p.workers|
    ensures var q := ReceiveAll(After(New(workers), evs, true), callbacks);
            && q.jobs == map[]
            && (s < q.issued ==> q.delivered[s] == 1)
  {
    SmoothIsRun(New(workers), evs);
    NothingLeftBehind(workers, evs, s);
    NewInv(workers);
    RunInv(New(workers), evs);
    var p := After(New(workers), evs, true);
    AllExited(p.workers);
    ReceiveAllKeeps(p, callbacks, ReceiveAll(p, callbacks));
    Emptied(ReceiveAll(p, callbacks), s);
  }

  lemma Emptied(q: Pool, s: nat)
    requires Inv(q) && q.queue == [] && WorkerJobs(q.workers) == multiset{} && q.statuses == []
    ensures q.jobs == map[]
    ensures s < q.issued ==> q.delivered[s] == 1
  {
    assert multiset(q.jobs.Keys) == multiset{};
    assert forall t :: t in q.jobs.Keys ==> t in multiset(q.jobs.Keys);
    assert q.jobs.Keys == {};
  }
}
