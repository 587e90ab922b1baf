/** A job can be lost: the callback of a finished job may submit a job into the bucket
    whose head the finished job still is. */
module JobPoolClash {
  import opened JobPool
  import opened JobPoolSafety

  /** Never more than so many jobs are outstanding. */
  ghost predicate Slim(p: Pool, evs: seq<Event>, limit: nat)
    requires IsRun(p, evs, true)
    decreases |evs|
  {
    |p.jobs.Keys| <= limit && (evs == [] || Slim(Step(p, evs[0]), evs[1..], limit))
  }

  lemma {:induction false} RunGoesOn(p: Pool, evs: seq<Event>, ev: Event, limit: nat)
    requires IsRun(p, evs, true) && Slim(p, evs, limit)
    requires var q := After(p, evs, true);
             Possible(q, ev) && !Clash(q, ev) && !Collides(q, ev) && |Step(q, ev).jobs.Keys| <= limit
    ensures IsRun(p, evs + [ev], true) && Slim(p, evs + [ev], limit)
    ensures After(p, evs + [ev], true) == Step(After(p, evs, true), ev)
    decreases |evs|
  {
    if evs == [] {
      assert evs + [ev] == [ev] && [ev][1..] == [];
      assert IsRun(Step(p, ev), [], true) && Slim(Step(p, ev), [], limit);
    } else {
      assert (evs + [ev])[0] == evs[0] && (evs + [ev])[1..] == evs[1..] + [ev];
      RunGoesOn(Step(p, evs[0]), evs[1..], ev, limit);
    }
  }

  /** Some smooth run of a new pool leads here, with no more jobs outstanding at any time. */
  ghost predicate Reached(p: Pool, limit: nat) {
    exists workers, evs ::
      IsRun(New(workers), evs, true) && Slim(New(workers), evs, limit) && After(New(workers), evs, true) == p
  }

  lemma ReachedInv(p: Pool, limit: nat)
    requires Reached(p, limit)
    ensures Inv(p)
  {
    var workers, evs :|
      IsRun(New(workers), evs, true) && Slim(New(workers), evs, limit) && After(New(workers), evs, true) == p;
    NewInv(workers);
    RunInv(New(workers), evs);
  }

  lemma ReachedNew(workers: nat, limit: nat)
    ensures Reached(New(workers), limit)
  {
    var p := New(workers);
    assert IsRun(p, [], true) && Slim(p, [], limit) && After(p, [], true) == p;
  }

  lemma ReachedNext(p: Pool, ev: Event, limit: nat)
    requires Reached(p, limit) && Possible(p, ev) && !Clash(p, ev) && !Collides(p, ev)
    requires |Step(p, ev).jobs.Keys| <= limit
    ensures Reached(Step(p, ev), limit)
  {
    var workers, evs :|
      IsRun(New(workers), evs, true) && Slim(New(workers), evs, limit) && After(New(workers), evs, true) == p;
    RunGoesOn(New(workers), evs, ev, limit);
  }

  /** A new job of the usual kind. */
  lemma SubmitOne(p: Pool, q: Pool, limit: nat)
    requires Reached(p, limit) && !p.closing && |p.buckets| == HASH_SIZE && Room(p.jobs.Keys, p.issued, 1)
    requires q == AddJob(p, OpDisk, 0) && |p.jobs.Keys| < limit
    ensures Reached(q, limit) && |q.jobs.Keys| <= |p.jobs.Keys| + 1
  {
    assert q == Step(p, Submit(OpDisk, 0)) && q.jobs.Keys == p.jobs.Keys + {p.issued};
    ReachedNext(p, Submit(OpDisk, 0), limit);
  }

  /** A pool that takes that many more jobs with that many outstanding. */
  ghost predicate Takes(p: Pool, n: nat, outstanding: nat, limit: nat) {
    && Reached(p, limit) && |p.buckets| == HASH_SIZE && !p.closing
    && Room(p.jobs.Keys, p.issued, n) && |p.jobs.Keys| <= outstanding && outstanding + n <= limit
  }

  lemma SubmitNext(p: Pool, n: nat, h: nat, outstanding: nat, limit: nat) returns (q: Pool)
    requires Takes(p, n, outstanding, limit) && n > 0 && h < HASH_SIZE
    ensures Takes(q, n - 1, outstanding + 1, limit) && Submitted(p, q, 1, h)
  {
    q := AddJob(p, OpDisk, 0);
    RoomForOne(p.jobs.Keys, p.issued, n);
    SubmitOne(p, q, limit);
    RoomAfter(p.jobs.Keys, p.issued, n);
    assert q.jobs.Keys == p.jobs.Keys + {p.issued};
    SubmittedOne(p, q, h);
  }

  lemma RoomForOne(keys: set<nat>, issued: nat, n: nat)
    requires Room(keys, issued, n) && n > 0
    ensures Room(keys, issued, 1)
  {
  }

  lemma SubmittedOne(p: Pool, q: Pool, h: nat)
    requires |p.buckets| == HASH_SIZE && h < HASH_SIZE && q == AddJob(p, OpDisk, 0)
    ensures Submitted(p, q, 1, h)
  {
    assert Added(p.issued, 1, h) == if Hash(p.issued) == h then [p.issued] else [];
  }

  lemma SubmittedJoin(p: Pool, q: Pool, r: Pool, n: nat, h: nat)
    requires h < |p.buckets| && Submitted(p, q, 1, h) && h < |q.buckets| && Submitted(q, r, n, h)
    ensures Submitted(p, r, n + 1, h)
  {
    AddedShift(p.issued, n + 1, h);
    assert Added(p.issued, 1, h) == if Hash(p.issued) == h then [p.issued] else [];
  }

  lemma {:induction false} SubmitMany(p: Pool, n: nat, h: nat, outstanding: nat, limit: nat) returns (q: Pool)
    requires Takes(p, n, outstanding, limit) && h < HASH_SIZE
    ensures Takes(q, 0, outstanding + n, limit) && Submitted(p, q, n, h)
    decreases n
  {
    q := p;
    if n > 0 {
      var r := SubmitNext(p, n, h, outstanding, limit);
      q := SubmitMany(r, n - 1, h, outstanding + 1, limit);
      SubmittedJoin(p, r, q, n - 1, h);
    }
  }

  /** Jobs have been submitted and nothing else has happened. */
  ghost predicate Submitted(p: Pool, q: Pool, n: nat, h: nat)
    requires h < |p.buckets|
  {
    && |q.buckets| == |p.buckets| && q.issued == p.issued + n && q.closing == p.closing
    && q.statuses == p.statuses && q.pipe == p.pipe
    && q.buckets[h] == Added(p.issued, n, h) + p.buckets[h]
  }

  /** A new job is taken by a worker. */
  lemma StartOne(p: Pool, w: nat, limit: nat) returns (q: Pool)
    requires Reached(p, limit) && !p.closing && |p.buckets| == HASH_SIZE
    requires w < |p.workers| && p.workers[w] == Waiting && p.queue == []
    requires Room(p.jobs.Keys, p.issued, 1) && |p.jobs.Keys| < limit
    ensures Reached(q, limit)
    ensures q == AddJob(p, OpDisk, 0).(queue := [], workers := p.workers[w := Got(p.issued)])
  {
    var r := AddJob(p, OpDisk, 0);
    SubmitOne(p, r, limit);
    ReachedNext(r, Get(w), limit);
    q := Step(r, Get(w));
  }

  /** A worker runs its job and reports it. */
  lemma RunOne(p: Pool, w: nat, s: nat, limit: nat) returns (q: Pool)
    requires Reached(p, limit) && |p.buckets| == HASH_SIZE && p.statuses == []
    requires w < |p.workers| && p.workers[w] == Got(s) && s < |p.ops| && p.ops[s].OpDisk?
    requires s in p.jobs && p.jobs[s].jstate == Enabled && |p.jobs.Keys| <= limit
    ensures Reached(q, limit) && Reports(p, q, w, s)
  {
    var r := LookAt(p, w);
    assert r == Step(p, Look(w)) && r.workers[w] == Looked(s, false) && r.jobs.Keys == p.jobs.Keys;
    ReachedNext(p, Look(w), limit);
    q := SendOne(r, w, s, limit);
  }

  lemma SendOne(p: Pool, w: nat, s: nat, limit: nat) returns (q: Pool)
    requires Reached(p, limit) && |p.buckets| == HASH_SIZE && p.statuses == []
    requires w < |p.workers| && p.workers[w] == Looked(s, false) && s < |p.ops| && p.ops[s].OpDisk?
    requires |p.jobs.Keys| <= limit
    ensures Reached(q, limit) && Reports(p, q, w, s)
  {
    var ev := RunJob(w, 0);
    ReachedNext(p, ev, limit);
    var r := Step(p, ev);
    assert r.workers[w] == Ran(s, 0);
    ReachedNext(r, Send(w), limit);
    q := Step(r, Send(w));
  }

  /** The job of a worker has been run and reported, and nothing else has happened. */
  ghost predicate Reports(p: Pool, q: Pool, w: nat, s: nat)
    requires w < |p.workers|
  {
    && q.statuses == [Report(s, 0)] && q.workers == p.workers[w := Waiting]
    && q.jobs.Keys == p.jobs.Keys && (forall k | k in p.jobs && k != s :: q.jobs[k] == p.jobs[k])
    && q.issued == p.issued && q.queue == p.queue && q.closing == p.closing
    && q.buckets == p.buckets && q.ops == p.ops
  }

  lemma HashGap(s: nat)
    requires 1 <= s < HASH_SIZE
    ensures Hash(s) != 1
  {
  }

  /** A state that a run leads to, in which the next callback's first job is lost: one job
      is reported but not yet received, and exactly as many have been submitted as there
      are buckets. */
  lemma JobCanBeLost(job: Job) returns (p: Pool)
    ensures Reached(p, HASH_SIZE) && Possible(p, Receive([job])) && Clash(p, Receive([job]))
    ensures Loses(Step(p, Receive([job])))
  {
    ReachedNew(1, HASH_SIZE);
    p := StartOne(New(1), 0, HASH_SIZE);
    assert p.jobs.Keys == {0};
    p := RunOne(p, 0, 0, HASH_SIZE);
    OnlyFirst(p, HASH_SIZE);
    p := SubmitMany(p, HASH_SIZE - 1, 1, 1, HASH_SIZE);
    NoneHere(HASH_SIZE - 1);
    ClashHere(p, job, HASH_SIZE);
  }

  lemma OnlyFirst(p: Pool, limit: nat)
    requires Reached(p, limit) && p.jobs.Keys == {0} && p.issued == 1 && p.statuses != []
    ensures |p.buckets| == HASH_SIZE && p.buckets[1] == [0] && p.pipe == 1
    ensures Room(p.jobs.Keys, p.issued, HASH_SIZE - 1)
  {
    ReachedInv(p, limit);
    var b := p.buckets[1];
    assert Hash(0) == 1;
    assert BucketOk(b, p.jobs.Keys, 1);
    assert 0 in b && forall i | 0 <= i < |b| :: b[i] in b;
    FallingLength(b, 1);
    forall t | 1 <= t < HASH_SIZE
      ensures IdOf(0) != IdOf(t)
    {
      SmallIds(t);
    }
  }

  lemma {:induction false} FallingLength(b: seq<nat>, n: nat)
    requires Descending(b) && forall i | 0 <= i < |b| :: b[i] < n
    ensures |b| <= n
  {
    if b != [] {
      FallingLength(b[1..], b[0]);
    }
  }

  lemma SmallIds(t: nat)
    requires t < ID_PERIOD
    ensures IdOf(t) == t + 1
  {
  }

  lemma ClashHere(p: Pool, job: Job, limit: nat)
    requires Reached(p, limit) && |p.buckets| == HASH_SIZE && p.issued == HASH_SIZE && !p.closing && p.buckets[1] == [0]
    requires p.statuses == [Report(0, 0)] && p.pipe == 1
    ensures Possible(p, Receive([job])) && Clash(p, Receive([job]))
    ensures Loses(Step(p, Receive([job])))
  {
    assert Hash(p.issued) == 1 && Hash(0) == 1 && IdOf(0) == 1;
    ReachedInv(p, limit);
    ClashLosesJob(p, [job]);
  }

  lemma NoneHere(n: nat)
    requires n < HASH_SIZE
    ensures Added(1, n, 1) == []
  {
    forall s | 1 <= s < 1 + n
      ensures Hash(s) != 1
    {
      HashGap(s);
    }
    AddedIs(1, n, 1);
  }

  /** Some job that was submitted and not yet reported is in no bucket. */
  ghost predicate Loses(p: Pool) {
    |p.buckets| == HASH_SIZE
    && exists s :: s in p.jobs && forall h | 0 <= h < HASH_SIZE :: s !in p.buckets[h]
  }

  /** What a clash does: some job that will still be reported is in no bucket. */
  lemma ClashLosesJob(p: Pool, news: seq<Job>)
    requires Inv(p) && Possible(p, Receive(news)) && Clash(p, Receive(news))
    ensures Loses(ReceiveStatus(p, news))
  {
    ReportedJob(p);
    var s0 := p.statuses[0].serial;
    var h := Hash(s0);
    ReceiveShape(p, news);
    AddJobsLinked(Popped(p), news);
    AddJobsBuckets(Popped(p), news, h);
    AddedIs(p.issued, |news|, h);
    LostJob(AddJobs(Popped(p), news), ReceiveStatus(p, news), p.buckets[h], Added(p.issued, |news|, h));
  }

  lemma LostJob(a: Pool, q: Pool, before: seq<nat>, added: seq<nat>)
    requires Linked(a) && before != [] && added != [] && |q.buckets| == HASH_SIZE
    requires var h := Hash(before[0]);
             && a.buckets[h] == added + before
             && q.buckets == a.buckets[h := Unlink(before, 0, added + before)]
    requires q.jobs == a.jobs - {before[0]}
    ensures added[0] in q.jobs && forall h | 0 <= h < HASH_SIZE :: added[0] !in q.buckets[h]
  {
    var s, k := added[0], Hash(before[0]);
    var now := added + before;
    assert BucketOk(now, a.jobs.Keys, k);
    assert now[0] == s && s in now;
    assert forall i | 0 <= i < |before| :: now[|added| + i] == before[i];
    assert s !in before && s !in before[1..];
    forall h | 0 <= h < HASH_SIZE
      ensures s !in q.buckets[h]
    {
      assert BucketOk(a.buckets[h], a.jobs.Keys, h);
    }
  }

  // ----- identifiers that come round -----------------------------------------------------------

  /** What a collision does: when the older job's status is received, the newer job is
      called back and freed in its place, before it has run; the older one stays. */
  lemma CollisionMisdelivers(p: Pool, op: Op, callback: nat)
    requires Inv(p) && !p.closing && p.statuses != []
    requires IdOf(p.statuses[0].serial) == IdOf(p.issued)
    ensures p.statuses[0].serial in p.jobs
    ensures var q := ReceiveStatus(AddJob(p, op, callback), []);
            && p.statuses[0].serial in q.jobs
            && p.issued !in q.jobs && q.delivered[p.issued] == 1 && Work(p.issued) in q.queue
  {
    ReportedJob(p);
    var s, n := p.statuses[0].serial, p.issued;
    var a := AddJob(p, op, callback);
    var bucket := a.buckets[Hash(s)];
    assert Hash(n) == Hash(s) && bucket == [n] + p.buckets[Hash(s)];
    assert bucket[0] == n && Find(bucket, IdOf(s)) == 0;
    assert p.delivered[n] == 0;
    assert a.queue[|p.queue|] == Work(n);
  }

  /** One worker keeps the first job while the other has served all others. */
  ghost predicate Holding(p: Pool) {
    && Reached(p, 2) && |p.buckets| == HASH_SIZE && !p.closing && p.queue == [] && p.statuses == []
    && p.workers == [Got(0), Waiting] && p.jobs.Keys == {0} && p.jobs[0].jstate == Enabled
    && 0 < p.issued <= ID_PERIOD && |p.ops| == p.issued && p.ops[0].OpDisk?
  }

  /** One more job comes and goes. */
  lemma ServeOne(p: Pool) returns (q: Pool)
    requires Holding(p) && p.issued < ID_PERIOD
    ensures Holding(q) && q.issued == p.issued + 1
  {
    var n := p.issued;
    SmallIds(n);
    SmallIds(0);
    q := StartOne(p, 1, 2);
    assert q.jobs.Keys == {0, n};
    q := RunOne(q, 1, n, 2);
    q := ReceiveLast(q, n, 2);
  }

  lemma ReceiveLast(p: Pool, n: nat, limit: nat) returns (q: Pool)
    requires Reached(p, limit) && p.statuses == [Report(n, 0)] && |p.jobs.Keys| <= limit
    ensures Reached(q, limit) && |q.buckets| == HASH_SIZE
    ensures q.statuses == [] && q.jobs == p.jobs - {n} && q.issued == p.issued && q.ops == p.ops
    ensures q.workers == p.workers && q.queue == p.queue && q.closing == p.closing
  {
    ReachedInv(p, limit);
    ReportedJob(p);
    ReceiveShape(p, []);
    q := Step(p, Receive([]));
    assert q.jobs.Keys == p.jobs.Keys - {n};
    ReachedNext(p, Receive([]), limit);
  }

  lemma {:induction false} ServeMany(p: Pool) returns (q: Pool)
    requires Holding(p)
    ensures Holding(q) && q.issued == ID_PERIOD
    decreases ID_PERIOD - p.issued
  {
    q := p;
    if p.issued < ID_PERIOD {
      q := ServeOne(p);
      q := ServeMany(q);
    }
  }

  /** A state that a run with at most two jobs outstanding at any time leads to, in which
      one job is reported and the next submission gets its identifier. */
  lemma IdComesRound() returns (p: Pool)
    ensures Reached(p, 2) && !p.closing && p.jobs.Keys == {0} && p.statuses == [Report(0, 0)]
    ensures IdOf(p.issued) == IdOf(0)
  {
    ReachedNew(2, 2);
    assert New(2).workers == [Waiting, Waiting];
    p := StartOne(New(2), 0, 2);
    assert p.jobs.Keys == {0};
    p := ServeMany(p);
    p := RunOne(p, 0, 0, 2);
  }
}
