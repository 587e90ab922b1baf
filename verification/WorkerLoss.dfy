/** What a job that drops out of the pool's table does to the connection that waits for
    it: which step drops it, that the connection then waits for ever, and that nothing
    else goes wrong. */
module WorkerLoss {
  import opened Common
  import opened Entry
  import opened Worker
  import opened WorkerSafety
  import JobPool
  import JobPoolSafety

  // ----- which step strands a connection ----------------------------------------------------

  /** Every job that has a callback will be called back. */
  ghost predicate NoneLost(s: Worker) {
    forall j | j in s.jobs && s.jobs[j].target.Some? :: !s.jobs[j].lost
  }

  /** A connection that waits for a job waits for one that will call it back. */
  ghost predicate Attended(s: Worker, id: nat)
    requires id in s.entries
  {
    var j := RecordedJob(s.entries[id]);
    s.entries[id].state != Closed && j > 0 ==> j in s.jobs && !s.jobs[j].lost
  }

  lemma AttendedIff(s: Worker)
    requires Inv(s)
    ensures NoneLost(s) <==> forall id | id in s.entries :: Attended(s, id)
  {
    if NoneLost(s) {
      forall id | id in s.entries
        ensures Attended(s, id)
      {
        assert EntryInv(s, id);
      }
    } else {
      var j :| j in s.jobs && s.jobs[j].target.Some? && s.jobs[j].lost;
      assert OwnedBy(s, j, s.jobs[j].target.value.entry);
      assert !Attended(s, s.jobs[j].target.value.entry);
    }
  }

  /** The callback's new job, which would call the connection back, is dropped. */
  ghost predicate Strands(s: Worker, ev: Event) {
    ev.Deliver? && Clash(s, ev.job, ev.env) && CallbackOf(s, ev.job, ev.env).1.callback.Some?
  }

  lemma ApplyLoses(s: Worker, id: nat, r: (Conn, Effect))
    requires NoneLost(s)
    ensures NoneLost(Apply(s, id, r))
  {
  }

  lemma DeliverLoses(s: Worker, j: nat, env: Env)
    requires Inv(s) && NoneLost(s) && Possible(s, Deliver(j, env))
    ensures NoneLost(DeliverJob(s, j, env)) <==> !Strands(s, Deliver(j, env))
  {
    var job := s.jobs[j];
    if job.target.Some? {
      CalledBack(s, j, env);
      var t := s.(jobs := s.jobs - {j});
      var u := Apply(t, job.target.value.entry, CallbackOf(s, j, env));
      ApplyLoses(t, job.target.value.entry, CallbackOf(s, j, env));
      if Clash(s, j, env) {
        assert s.nextJob in u.jobs && Lose(u, s.nextJob).jobs[s.nextJob].lost;
      }
    }
  }

  /** A step leaves a connection without the job it waits for exactly if the callback's new
      job goes in front of the job that is being unlinked. */
  lemma StepLoses(s: Worker, ev: Event)
    requires Inv(s) && NoneLost(s) && Possible(s, ev)
    ensures NoneLost(Step(s, ev)) <==> !Strands(s, ev)
  {
    if OfSocket(ev) {
      SocketEvent(s, ev);
      ApplyLoses(s, ev.id, Handled(s.entries[ev.id], ev, s.nextJob));
    } else if ev.Deliver? {
      DeliverLoses(s, ev.job, ev.env);
    } else if ev.Accept? {
      ApplyLoses(s.(nextEntry := s.nextEntry + 1), s.nextEntry, (Fresh(), NoEffect));
    }
  }

  /** A job is lost, and whom it would have called back. */
  ghost predicate LostFor(s: Worker, j: nat, target: Option<Target>) {
    j in s.jobs && s.jobs[j].lost && s.jobs[j].target == target
  }

  lemma ApplyStays(s: Worker, id: nat, r: (Conn, Effect), j: nat, target: Option<Target>)
    requires LostFor(s, j, target) && j < s.nextJob
    ensures LostFor(Apply(s, id, r), j, target)
  {
  }

  lemma DeliverStays(s: Worker, i: nat, env: Env, j: nat, target: Option<Target>)
    requires LostFor(s, j, target) && j < s.nextJob && i in s.jobs && s.jobs[i].phase.Done?
    ensures LostFor(DeliverJob(s, i, env), j, target)
  {
    if i != j && HasCallback(s, i) {
      ApplyStays(s.(jobs := s.jobs - {i}), s.jobs[i].target.value.entry, CallbackOf(s, i, env), j, target);
    }
  }

  lemma LostStays(s: Worker, ev: Event, j: nat, target: Option<Target>)
    requires Possible(s, ev) && LostFor(s, j, target) && j < s.nextJob
    ensures LostFor(Step(s, ev), j, target)
  {
    if OfSocket(ev) {
      SocketEvent(s, ev);
      ApplyStays(s, ev.id, Handled(s.entries[ev.id], ev, s.nextJob), j, target);
    } else if ev.Deliver? {
      DeliverStays(s, ev.job, ev.env, j, target);
    } else if ev.Accept? {
      ApplyStays(s.(nextEntry := s.nextEntry + 1), s.nextEntry, (Fresh(), NoEffect), j, target);
    }
  }

  ghost predicate NeverStrands(s: Worker, evs: seq<Event>)
    requires IsRun(s, evs)
    decreases |evs|
  {
    evs == [] || (!Strands(s, evs[0]) && NeverStrands(Step(s, evs[0]), evs[1..]))
  }

  lemma {:induction false} LostForGood(s: Worker, evs: seq<Event>, j: nat, target: Option<Target>)
    requires Inv(s) && IsPoliteRun(s, evs) && LostFor(s, j, target)
    ensures IsRun(s, evs) && Inv(After(s, evs)) && LostFor(After(s, evs), j, target)
    decreases |evs|
  {
    RunKeepsInv(s, evs);
    if evs != [] {
      StepKeepsInv(s, evs[0]);
      LostStays(s, evs[0], j, target);
      LostForGood(Step(s, evs[0]), evs[1..], j, target);
    }
  }

  lemma {:induction false} RunLoses(s: Worker, evs: seq<Event>)
    requires Inv(s) && NoneLost(s) && IsPoliteRun(s, evs)
    ensures IsRun(s, evs) && Inv(After(s, evs))
    ensures NoneLost(After(s, evs)) <==> NeverStrands(s, evs)
    decreases |evs|
  {
    RunKeepsInv(s, evs);
    if evs != [] {
      StepKeepsInv(s, evs[0]);
      StepLoses(s, evs[0]);
      var t := Step(s, evs[0]);
      if Strands(s, evs[0]) {
        var j :| j in t.jobs && t.jobs[j].target.Some? && t.jobs[j].lost;
        LostForGood(t, evs[1..], j, t.jobs[j].target);
      } else {
        RunLoses(t, evs[1..]);
      }
    }
  }

  /** In every run, every connection that waits for a job will be called back by it, if and
      only if no step of the run has stranded one. */
  lemma EveryoneAttended(evs: seq<Event>)
    requires IsPoliteRun(Initial(), evs)
    ensures IsRun(Initial(), evs)
    ensures var s := After(Initial(), evs);
            (forall id | id in s.entries :: Attended(s, id)) <==> NeverStrands(Initial(), evs)
  {
    RunLoses(Initial(), evs);
    AttendedIff(After(Initial(), evs));
  }

  /** A connection whose job is lost waits for it in every continuation: it is never idle,
      closed or erased again. */
  lemma StrandedForEver(s: Worker, evs: seq<Event>, id: nat)
    requires Inv(s) && IsPoliteRun(s, evs) && id in s.entries && !Attended(s, id)
    ensures IsRun(s, evs)
    ensures var t := After(s, evs);
            && id in t.entries && t.entries[id].state !in {Idle, Closed}
            && RecordedJob(t.entries[id]) == RecordedJob(s.entries[id])
            && !Attended(t, id)
  {
    var j := RecordedJob(s.entries[id]);
    assert EntryInv(s, id);
    LostForGood(s, evs, j, s.jobs[j].target);
    var t := After(s, evs);
    assert OwnedBy(t, j, id);
    assert EntryInv(t, id);
  }

  // ----- the same clash in the pool's own table -----------------------------------------------

  /** The pool holds the worker's jobs under their numbers less one, and the status of a job
      comes next. */
  ghost predicate Mirrors(p: JobPool.Pool, s: Worker, j: nat) {
    && JobPoolSafety.Numbered(p) && JobPoolSafety.Linked(p)
    && s.nextJob == p.issued + 1 && j > 0
    && (forall k | k in s.jobs :: k > 0 && !s.jobs[k].lost && k - 1 in p.jobs)
    && (forall k | k in p.jobs :: k + 1 in s.jobs)
    && p.statuses != [] && p.statuses[0].serial == j - 1
  }

  /** A clash here is a clash of the pool. */
  lemma SameClash(p: JobPool.Pool, s: Worker, j: nat, env: Env, news: seq<JobPool.Job>)
    requires Mirrors(p, s, j) && HasCallback(s, j)
    requires |news| == if CallbackOf(s, j, env).1.Submit? then 1 else 0
    requires JobPool.Possible(p, JobPool.Receive(news))
    ensures Clash(s, j, env) <==> JobPool.Clash(p, JobPool.Receive(news))
  {
    SameHead(p, s, j);
    if Clash(s, j, env) {
      assert JobPool.Hash(p.issued) == JobPool.Hash(p.statuses[0].serial);
    }
  }

  lemma SameHead(p: JobPool.Pool, s: Worker, j: nat)
    requires Mirrors(p, s, j) && j in s.jobs
    ensures AtHead(s, j) <==> JobPool.Find(p.buckets[JobPool.Hash(j - 1)], JobPool.IdOf(j - 1)) == 0
  {
    JobPoolSafety.HeadIsNewest(p, j - 1);
    if AtHead(s, j) {
      forall k | k in p.jobs && JobPool.Hash(k) == JobPool.Hash(j - 1)
        ensures k <= j - 1
      {
        assert k + 1 in s.jobs && Bucket(k + 1) == Bucket(j);
      }
    }
  }

  // ----- a run that strands a connection --------------------------------------------------------

  /** One connection reads two blocks, another has asked for prefetches. */
  ghost predicate Flooded(s: Worker, e: Conn, n: nat) {
    && Reached(s) && s.nextJob == n + 2 && !s.aborted
    && s.entries == map[0 := e, 1 := Fresh()]
    && (forall k | k in s.jobs :: 0 < k < s.nextJob)
    && 1 in s.jobs && s.jobs[1] == Job(OpRead(0, BLOCK_SIZE, true), Some(Target(0, ReadFinished)), Enabled, false)
  }

  /** The connection that reads. */
  function Reader(): Conn {
    Fresh().(state := Read, readJobId := 1, todoRead := 1, readPacket := Some(ReadData(0, BLOCK_SIZE)),
             serializer := true, offset := BLOCK_SIZE, size := BLOCK_SIZE)
  }

  lemma FloodStarts() returns (s: Worker)
    ensures Flooded(s, Reader(), 0)
  {
    s := Initial();
    assert IsPoliteRun(s, []) && IsRun(s, []) && After(s, []) == s;
    ReachedNext(s, Accept);
    s := Step(s, Accept);
    ReachedNext(s, Accept);
    s := Step(s, Accept);
    assert s.entries == map[0 := Fresh(), 1 := Fresh()];
    var ev := ClientPacket(0, ReadReq(true, 0, 2 * BLOCK_SIZE), READY);
    ReachedNext(s, ev);
    assert OnInput(Fresh(), ev.packet, READY, 1)
        == (Reader(), Submit(OpRead(0, BLOCK_SIZE, true), Some(ReadFinished)));
    s := Step(s, ev);
  }

  lemma {:induction false} FloodGrows(s: Worker, e: Conn, n: nat, m: nat) returns (t: Worker)
    requires Flooded(s, e, n) && n <= m
    ensures Flooded(t, e, m)
    decreases m - n
  {
    t := s;
    if n < m {
      var ev := ClientPacket(1, PrefetchReq(true), READY);
      ReachedNext(s, ev);
      assert OnInput(Fresh(), ev.packet, READY, s.nextJob) == (Fresh(), Submit(OpPrefetch, None));
      t := Step(s, ev);
      assert t.entries == s.entries;
      t := FloodGrows(t, e, n + 1, m);
    }
  }

  lemma OtherBuckets(k: nat)
    requires 1 < k <= JobPool.HASH_SIZE
    ensures Bucket(k) != Bucket(1)
  {
  }

  /** A polite run after which the next callback strands its connection: a read of two
      blocks, 1023 prefetches of another connection, and the first block has been read. */
  lemma CanBeStranded() returns (s: Worker)
    ensures Reached(s) && Possible(s, Deliver(1, READY)) && Strands(s, Deliver(1, READY))
  {
    s := FloodStarts();
    s := FloodGrows(s, Reader(), 0, JobPool.HASH_SIZE - 1);
    s := ReadFirst(s);
    FirstIsHead(s);
  }

  lemma FirstIsHead(s: Worker)
    requires s.nextJob == JobPool.HASH_SIZE + 1 && forall k | k in s.jobs :: 0 < k < s.nextJob
    ensures InTheWay(s, 1)
  {
    forall k | k in s.jobs && k > 1
      ensures Bucket(k) != Bucket(1)
    {
      OtherBuckets(k);
    }
    assert Bucket(s.nextJob) == Bucket(1);
  }

  lemma ReadFirst(s: Worker) returns (t: Worker)
    requires Flooded(s, Reader(), JobPool.HASH_SIZE - 1)
    ensures Reached(t) && t.nextJob == s.nextJob && t.jobs.Keys == s.jobs.Keys
    ensures (forall k | k in t.jobs :: 0 < k < t.nextJob) && Possible(t, Deliver(1, READY))
    ensures HasCallback(t, 1) && CallbackOf(t, 1, READY).1.Submit? && CallbackOf(t, 1, READY).1.callback.Some?
  {
    ReachedNext(s, Start(1));
    t := Step(s, Start(1));
    ReachedNext(t, Finish(1, STATUS_OK));
    t := Step(t, Finish(1, STATUS_OK));
  }
}
