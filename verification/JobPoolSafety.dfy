/** What every interleaving of the network thread and the workers keeps. */
module JobPoolSafety {
  import opened JobPool

  // ----- where a job is --------------------------------------------------------------

  function ItemJob(i: Item): multiset<nat> {
    if i.Work? then multiset{i.serial} else multiset{}
  }

  function QueueJobs(q: seq<Item>): multiset<nat> {
    if q == [] then multiset{} else ItemJob(q[0]) + QueueJobs(q[1..])
  }

  function WorkerJob(w: WorkerState): multiset<nat> {
    if w.Waiting? || w.Exited? then multiset{} else multiset{w.serial}
  }

  function WorkerJobs(ws: seq<WorkerState>): multiset<nat> {
    if ws == [] then multiset{} else WorkerJob(ws[0]) + WorkerJobs(ws[1..])
  }

  function StatusJobs(rs: seq<Report>): multiset<nat> {
    if rs == [] then multiset{} else multiset{rs[0].serial} + StatusJobs(rs[1..])
  }

  lemma {:induction false} QueueAppend(q: seq<Item>, i: Item)
    ensures QueueJobs(q + [i]) == QueueJobs(q) + ItemJob(i)
  {
    if q == [] {
      assert q + [i] == [i];
    } else {
      assert (q + [i])[1..] == q[1..] + [i];
      QueueAppend(q[1..], i);
    }
  }

  lemma {:induction false} StatusAppend(rs: seq<Report>, r: Report)
    ensures StatusJobs(rs + [r]) == StatusJobs(rs) + multiset{r.serial}
  {
    if rs == [] {
      assert rs + [r] == [r];
    } else {
      assert (rs + [r])[1..] == rs[1..] + [r];
      StatusAppend(rs[1..], r);
    }
  }

  lemma {:induction false} WorkerUpdate(ws: seq<WorkerState>, w: nat, x: WorkerState)
    requires w < |ws|
    ensures WorkerJobs(ws[w := x]) + WorkerJob(ws[w]) == WorkerJobs(ws) + WorkerJob(x)
  {
    if w == 0 {
      assert ws[0 := x][1..] == ws[1..];
    } else {
      var a, rest := WorkerJob(ws[0]), ws[1..];
      assert ws[w := x][1..] == rest[w - 1 := x];
      WorkerUpdate(rest, w - 1, x);
      OnBothSides(a, WorkerJobs(rest[w - 1 := x]), WorkerJob(ws[w]), WorkerJobs(rest), WorkerJob(x));
    }
  }

  lemma OnBothSides(a: multiset<nat>, b: multiset<nat>, c: multiset<nat>, d: multiset<nat>, e: multiset<nat>)
    requires b + c == d + e
    ensures (a + b) + c == (a + d) + e
  {
    assert (a + b) + c == a + (b + c);
    assert (a + d) + e == a + (d + e);
  }

  lemma {:induction false} WorkerHas(ws: seq<WorkerState>, w: nat)
    requires w < |ws|
    ensures WorkerJob(ws[w]) <= WorkerJobs(ws)
  {
    if w > 0 {
      WorkerHas(ws[1..], w - 1);
    }
  }

  // ----- invariants ------------------------------------------------------------------

  ghost predicate Numbered(p: Pool) {
    && |p.buckets| == HASH_SIZE && |p.ops| == p.issued
    && (forall s | s in p.jobs :: s < p.issued && p.jobs[s].op == p.ops[s])
    && (forall s, t | s in p.jobs && t in p.jobs && IdOf(s) == IdOf(t) :: s == t)
  }

  /** Newer jobs stand before older ones. */
  ghost predicate Descending(b: seq<nat>) {
    forall i, j | 0 <= i < j < |b| :: b[i] > b[j]
  }

  ghost predicate BucketOk(b: seq<nat>, keys: set<nat>, h: nat) {
    && Descending(b)
    && (forall s | s in b :: s in keys && Hash(s) == h)
    && (forall s | s in keys && Hash(s) == h :: s in b)
  }

  /** The table holds exactly the jobs that are not yet freed. */
  ghost predicate Linked(p: Pool) {
    |p.buckets| == HASH_SIZE
    && forall h | 0 <= h < HASH_SIZE :: BucketOk(p.buckets[h], p.jobs.Keys, h)
  }

  /** Every job is at one place: in the queue, with a worker, or reported. */
  ghost predicate Placed(p: Pool) {
    QueueJobs(p.queue) + WorkerJobs(p.workers) + StatusJobs(p.statuses) == multiset(p.jobs.Keys)
  }

  /** A job has one report once it has been run, and is delivered at most once. */
  ghost predicate Counted(p: Pool) {
    && p.reports == StatusJobs(p.statuses) + p.delivered
    && (forall s: nat :: p.delivered[s] == (if s < p.issued && s !in p.jobs then 1 else 0))
  }

  predicate Piped(p: Pool) {
    p.pipe == if p.statuses == [] then 0 else 1
  }

  ghost predicate WorkerOk(p: Pool, w: WorkerState) {
    match w
    case Looked(s, disabled) =>
      s in p.jobs && p.jobs[s].jstate != Enabled && (s in p.early ==> disabled)
    case Ran(s, _) => s in p.jobs && p.jobs[s].jstate != Enabled
    case Got(s) => s in p.jobs
    case _ => true
  }

  /** A job disabled in time stays disabled and does not reach the disk. */
  ghost predicate Disabled(p: Pool) {
    && (forall s | s in p.early :: s < |p.ops| && (p.ops[s].OpDisk? ==> s !in p.disk))
    && (forall s | s in p.early && s in p.jobs :: p.jobs[s].jstate == JobState.Disabled)
    && (forall s | s in p.jobs && p.jobs[s].jstate == Enabled :: s !in p.disk)
    && (forall s | s in p.disk :: s < p.issued && s < |p.ops| && !p.ops[s].OpInval?)
    && (forall w | 0 <= w < |p.workers| :: WorkerOk(p, p.workers[w]))
  }

  function Exits(q: seq<Item>): nat {
    if q == [] then 0 else (if q[0].Exit? then 1 else 0) + Exits(q[1..])
  }

  function ExitedWorkers(ws: seq<WorkerState>): nat {
    if ws == [] then 0 else (if ws[0].Exited? then 1 else 0) + ExitedWorkers(ws[1..])
  }

  /** Exit tokens follow all jobs, one for each worker that has not taken its own. */
  ghost predicate Ending(p: Pool) {
    && (forall i, j | 0 <= i < j < |p.queue| && p.queue[i].Exit? :: p.queue[j].Exit?)
    && Exits(p.queue) + ExitedWorkers(p.workers) == (if p.closing then |p.workers| else 0)
    && (ExitedWorkers(p.workers) > 0 ==> forall i | 0 <= i < |p.queue| :: p.queue[i].Exit?)
  }

  ghost predicate Inv(p: Pool) {
    Numbered(p) && Linked(p) && Placed(p) && Counted(p) && Piped(p) && Disabled(p) && Ending(p)
  }

  // ----- the table -------------------------------------------------------------------

  lemma SameIdSameJob(s: nat, t: nat)
    requires s < t + ID_PERIOD && t < s + ID_PERIOD && IdOf(s) == IdOf(t)
    ensures s == t
  {
  }

  lemma LinkKeeps(b: seq<nat>, keys: set<nat>, h: nat, s: nat)
    requires BucketOk(b, keys, h) && forall k | k in keys :: k < s
    ensures BucketOk(if Hash(s) == h then [s] + b else b, keys + {s}, h)
  {
    if Hash(s) == h {
      var c := [s] + b;
      assert forall i | 0 < i < |c| :: c[i] == b[i - 1] && c[i] in b;
    }
  }

  lemma AddJobLinked(p: Pool, op: Op, callback: nat)
    requires Linked(p) && forall s | s in p.jobs :: s < p.issued
    ensures Linked(AddJob(p, op, callback))
  {
    var q := AddJob(p, op, callback);
    assert q.jobs.Keys == p.jobs.Keys + {p.issued};
    forall h | 0 <= h < HASH_SIZE
      ensures BucketOk(q.buckets[h], q.jobs.Keys, h)
    {
      LinkKeeps(p.buckets[h], p.jobs.Keys, h, p.issued);
    }
  }

  lemma AddJobKeeps(p: Pool, op: Op, callback: nat)
    requires Numbered(p) && Placed(p) && Counted(p) && Disabled(p) && Ending(p)
    requires !p.closing && Room(p.jobs.Keys, p.issued, 1)
    ensures var q := AddJob(p, op, callback);
            Numbered(q) && Placed(q) && Counted(q) && Disabled(q) && Ending(q)
  {
    AddJobNumbered(p, op, callback);
    AddJobPlaced(p, op, callback);
    AddJobDisabled(p, op, callback);
    AddJobEnding(p, op, callback);
  }

  lemma AddJobNumbered(p: Pool, op: Op, callback: nat)
    requires Numbered(p) && Counted(p) && Room(p.jobs.Keys, p.issued, 1)
    ensures Numbered(AddJob(p, op, callback)) && Counted(AddJob(p, op, callback))
  {
  }

  lemma AddJobPlaced(p: Pool, op: Op, callback: nat)
    requires Numbered(p) && Placed(p)
    ensures Placed(AddJob(p, op, callback))
  {
    QueueAppend(p.queue, Work(p.issued));
    assert AddJob(p, op, callback).jobs.Keys == p.jobs.Keys + {p.issued};
    OneMore(p.jobs.Keys, p.issued);
  }

  lemma OneMore(keys: set<nat>, s: nat)
    requires s !in keys
    ensures multiset(keys + {s}) == multiset(keys) + multiset{s}
  {
  }

  lemma AddJobDisabled(p: Pool, op: Op, callback: nat)
    requires Numbered(p) && Disabled(p)
    ensures Disabled(AddJob(p, op, callback))
  {
  }

  lemma AddJobEnding(p: Pool, op: Op, callback: nat)
    requires Ending(p) && !p.closing && |p.buckets| == HASH_SIZE
    ensures Ending(AddJob(p, op, callback))
  {
    ExitsAppend(p.queue, [Work(p.issued)]);
    assert [Work(p.issued)][1..] == [];
    assert Exits([Work(p.issued)]) == 0;
    NoExits(p.queue);
  }

  lemma {:induction false} ExitsAppend(q: seq<Item>, r: seq<Item>)
    ensures Exits(q + r) == Exits(q) + Exits(r)
  {
    if q == [] {
      assert q + r == r;
    } else {
      assert (q + r)[1..] == q[1..] + r;
      ExitsAppend(q[1..], r);
    }
  }

  lemma {:induction false} NoExits(q: seq<Item>)
    ensures Exits(q) == 0 <==> forall i | 0 <= i < |q| :: q[i].Work?
  {
    if q != [] {
      NoExits(q[1..]);
    }
  }

  /** The jobs that a callback submitted into a bucket, newest first. */
  function Added(from: nat, n: nat, h: nat): seq<nat> {
    if n == 0 then []
    else (if Hash(from + n - 1) == h then [from + n - 1] else []) + Added(from, n - 1, h)
  }

  lemma {:induction false} AddedShift(from: nat, n: nat, h: nat)
    requires n > 0
    ensures Added(from, n, h) == Added(from + 1, n - 1, h) + (if Hash(from) == h then [from] else [])
  {
    if n > 1 {
      AddedShift(from, n - 1, h);
    }
  }

  lemma {:induction false} AddedIs(from: nat, n: nat, h: nat)
    ensures Added(from, n, h) == [] <==> forall s | from <= s < from + n :: Hash(s) != h
  {
    if n > 0 {
      AddedIs(from, n - 1, h);
      if Added(from, n, h) == [] {
        forall s | from <= s < from + n
          ensures Hash(s) != h
        {
        }
      }
    }
  }

  lemma {:induction false} AddJobsBuckets(p: Pool, news: seq<Job>, h: nat)
    requires |p.buckets| == HASH_SIZE && h < HASH_SIZE
    ensures AddJobs(p, news).buckets[h] == Added(p.issued, |news|, h) + p.buckets[h]
    ensures AddJobs(p, news).issued == p.issued + |news|
    decreases |news|
  {
    if news != [] {
      var q := AddJob(p, news[0].op, news[0].callback);
      AddJobsBuckets(q, news[1..], h);
      AddedShift(p.issued, |news|, h);
    }
  }

  lemma RoomAfter(keys: set<nat>, issued: nat, n: nat)
    requires Room(keys, issued, n) && n > 0
    ensures Room(keys + {issued}, issued + 1, n - 1)
  {
    forall t | issued < t < issued + n
      ensures IdOf(issued) != IdOf(t)
    {
      if IdOf(issued) == IdOf(t) {
        SameIdSameJob(issued, t);
      }
    }
  }

  lemma {:induction false} AddJobsKeys(p: Pool, news: seq<Job>)
    requires |p.buckets| == HASH_SIZE
    ensures forall t: nat :: t in AddJobs(p, news).jobs
                             <==> t in p.jobs || p.issued <= t < p.issued + |news|
    decreases |news|
  {
    if news != [] {
      AddJobsKeys(AddJob(p, news[0].op, news[0].callback), news[1..]);
    }
  }

  /** Submitting from a callback keeps everything, as long as there is room. */
  lemma {:induction false} AddJobsKeep(p: Pool, news: seq<Job>)
    requires Numbered(p) && Placed(p) && Counted(p) && Disabled(p) && Ending(p)
    requires Room(p.jobs.Keys, p.issued, |news|) && (p.closing ==> news == [])
    ensures var q := AddJobs(p, news);
            && Numbered(q) && Placed(q) && Counted(q) && Disabled(q) && Ending(q)
            && q.statuses == p.statuses && q.pipe == p.pipe
    decreases |news|
  {
    if news != [] {
      var q := AddJob(p, news[0].op, news[0].callback);
      assert Room(p.jobs.Keys, p.issued, 1);
      AddJobKeeps(p, news[0].op, news[0].callback);
      RoomAfter(p.jobs.Keys, p.issued, |news|);
      assert q.jobs.Keys == p.jobs.Keys + {p.issued};
      AddJobsKeep(q, news[1..]);
    }
  }

  // ----- taking a status ----------------------------------------------------------------

  lemma FoundInBucket(p: Pool, s: nat)
    requires Numbered(p) && Linked(p) && s in p.jobs
    ensures var b := p.buckets[Hash(s)];
            var pos := Find(b, IdOf(s));
            pos < |b| && b[pos] == s
  {
    var b := p.buckets[Hash(s)];
    var pos := Find(b, IdOf(s));
    assert BucketOk(b, p.jobs.Keys, Hash(s));
    assert s in b;
    var i :| 0 <= i < |b| && b[i] == s;
    assert !(i < pos);
    assert b[pos] in b;
  }

  /** A job is at the head of its bucket exactly if no newer job is outstanding there. */
  lemma HeadIsNewest(p: Pool, s: nat)
    requires Numbered(p) && Linked(p) && s in p.jobs
    ensures Find(p.buckets[Hash(s)], IdOf(s)) == 0
       <==> forall k | k in p.jobs && Hash(k) == Hash(s) :: k <= s
  {
    var b := p.buckets[Hash(s)];
    FoundInBucket(p, s);
    assert BucketOk(b, p.jobs.Keys, Hash(s));
    assert b[0] in b;
  }

  /** Taking one job out of a bucket, wherever it is. */
  lemma RemoveKeeps(b: seq<nat>, keys: set<nat>, h: nat, i: nat)
    requires BucketOk(b, keys, h) && i < |b|
    ensures BucketOk(b[..i] + b[i + 1..], keys - {b[i]}, h)
  {
  }

  lemma OtherBucket(b: seq<nat>, keys: set<nat>, h: nat, s: nat)
    requires BucketOk(b, keys, h) && Hash(s) != h
    ensures BucketOk(b, keys - {s}, h)
  {
  }

  lemma UnlinkGood(before: seq<nat>, pos: nat, added: seq<nat>, keys: set<nat>, h: nat)
    requires pos < |before| && BucketOk(added + before, keys, h) && (pos > 0 || added == [])
    ensures BucketOk(Unlink(before, pos, added + before), keys - {before[pos]}, h)
  {
    var now, i := added + before, |added| + pos;
    assert now[i] == before[pos] && now[i + 1..] == before[pos + 1..];
    assert Unlink(before, pos, now) == now[..i] + now[i + 1..];
    RemoveKeeps(now, keys, h, i);
  }

  lemma UnlinkBad(before: seq<nat>, added: seq<nat>, keys: set<nat>, h: nat)
    requires before != [] && added != [] && BucketOk(added + before, keys, h)
    ensures !BucketOk(Unlink(before, 0, added + before), keys - {before[0]}, h)
  {
    var now, s := added + before, added[0];
    assert now[0] == s && s in now;
    assert forall i | 0 <= i < |before| :: now[|added| + i] == before[i];
    assert s !in before;
    assert s !in before[1..];
  }

  /** The network thread's state after the status is taken and before the callback. */
  function Popped(p: Pool): Pool
    requires p.statuses != []
  {
    p.(statuses := p.statuses[1..],
       pipe := if |p.statuses| == 1 && p.pipe > 0 then p.pipe - 1 else p.pipe)
  }

  lemma ReceiveShape(p: Pool, news: seq<Job>)
    requires Numbered(p) && Linked(p) && p.statuses != [] && p.statuses[0].serial in p.jobs
    ensures var s := p.statuses[0].serial;
            var h := Hash(s);
            var pos := Find(p.buckets[h], IdOf(s));
            var a := AddJobs(Popped(p), news);
            && pos < |p.buckets[h]| && p.buckets[h][pos] == s
            && ReceiveStatus(p, news)
               == a.(buckets := a.buckets[h := Unlink(p.buckets[h], pos, a.buckets[h])],
                     jobs := a.jobs - {s},
                     delivered := a.delivered + multiset{s})
  {
    FoundInBucket(p, p.statuses[0].serial);
  }

  /** After a status has been taken, the table again holds exactly the jobs that are not
      yet freed, unless the callback submitted into the bucket whose head it was. */
  lemma TableKeptUnlessClash(p: Pool, news: seq<Job>)
    requires Numbered(p) && Linked(p) && Possible(p, Receive(news)) && p.statuses[0].serial in p.jobs
    ensures Linked(ReceiveStatus(p, news)) <==> !Clash(p, Receive(news))
  {
    var s := p.statuses[0].serial;
    var h := Hash(s);
    ReceiveShape(p, news);
    AddJobsLinked(Popped(p), news);
    AddJobsBuckets(Popped(p), news, h);
    AddedIs(p.issued, |news|, h);
    TableAfter(AddJobs(Popped(p), news), ReceiveStatus(p, news), p.buckets[h],
               Find(p.buckets[h], IdOf(s)), Added(p.issued, |news|, h));
  }

  lemma TableAfter(a: Pool, q: Pool, before: seq<nat>, pos: nat, added: seq<nat>)
    requires Linked(a) && pos < |before| && |q.buckets| == HASH_SIZE
    requires var h := Hash(before[pos]);
             && a.buckets[h] == added + before
             && q.buckets == a.buckets[h := Unlink(before, pos, added + before)]
    requires q.jobs == a.jobs - {before[pos]}
    ensures Linked(q) <==> pos > 0 || added == []
  {
    var s := before[pos];
    var h := Hash(s);
    assert q.jobs.Keys == a.jobs.Keys - {s};
    assert BucketOk(added + before, a.jobs.Keys, h);
    if pos > 0 || added == [] {
      UnlinkGood(before, pos, added, a.jobs.Keys, h);
      forall k | 0 <= k < HASH_SIZE
        ensures BucketOk(q.buckets[k], q.jobs.Keys, k)
      {
        if k != h {
          OtherBucket(a.buckets[k], a.jobs.Keys, k, s);
        }
      }
    } else {
      UnlinkBad(before, added, a.jobs.Keys, h);
      assert !BucketOk(q.buckets[h], q.jobs.Keys, h);
    }
  }

  lemma {:induction false} AddJobsLinked(p: Pool, news: seq<Job>)
    requires Linked(p) && (forall s | s in p.jobs :: s < p.issued)
    ensures Linked(AddJobs(p, news))
    decreases |news|
  {
    if news != [] {
      AddJobLinked(p, news[0].op, news[0].callback);
      AddJobsLinked(AddJob(p, news[0].op, news[0].callback), news[1..]);
    }
  }

  /** The pool after the reported job is freed, before the callback's submissions. */
  function Freed(p: Pool): Pool
    requires p.statuses != []
  {
    var s := p.statuses[0].serial;
    Popped(p).(jobs := p.jobs - {s}, delivered := p.delivered + multiset{s})
  }

  lemma {:induction false} FreeingCommutes(p: Pool, s: nat, news: seq<Job>)
    requires |p.buckets| == HASH_SIZE && s < p.issued
    ensures var f := p.(jobs := p.jobs - {s}, delivered := p.delivered + multiset{s});
            var a := AddJobs(p, news);
            AddJobs(f, news) == a.(jobs := a.jobs - {s}, delivered := a.delivered + multiset{s})
    decreases |news|
  {
    if news != [] {
      var f := p.(jobs := p.jobs - {s}, delivered := p.delivered + multiset{s});
      var q := AddJob(p, news[0].op, news[0].callback);
      var g := AddJob(f, news[0].op, news[0].callback);
      assert g == q.(jobs := q.jobs - {s}, delivered := q.delivered + multiset{s});
      FreeingCommutes(q, s, news[1..]);
    }
  }

  lemma ReportedJob(p: Pool)
    requires Placed(p) && p.statuses != []
    ensures p.statuses[0].serial in p.jobs
    ensures forall w | 0 <= w < |p.workers| :: p.statuses[0].serial !in WorkerJob(p.workers[w])
  {
    var s := p.statuses[0].serial;
    var m := multiset(p.jobs.Keys);
    assert StatusJobs(p.statuses)[s] >= 1;
    assert m[s] >= 1;
    forall w | 0 <= w < |p.workers|
      ensures s !in WorkerJob(p.workers[w])
    {
      WorkerHas(p.workers, w);
      assert m[s] <= 1;
    }
  }

  lemma FreedKeeps(p: Pool)
    requires Inv(p) && p.statuses != []
    ensures var f := Freed(p);
            Numbered(f) && Placed(f) && Counted(f) && Disabled(f) && Ending(f) && Piped(f)
  {
    ReportedJob(p);
    FreedPlaced(p);
    FreedCounted(p);
    FreedDisabled(p);
  }

  lemma FreedPlaced(p: Pool)
    requires Placed(p) && p.statuses != [] && p.statuses[0].serial in p.jobs
    ensures Placed(Freed(p))
  {
    var s := p.statuses[0].serial;
    var keys := p.jobs.Keys - {s};
    assert Freed(p).jobs.Keys == keys && keys + {s} == p.jobs.Keys;
    OneMore(keys, s);
    CancelOne(QueueJobs(p.queue) + WorkerJobs(p.workers), StatusJobs(p.statuses[1..]), multiset(keys), s);
  }

  lemma CancelOne(a: multiset<nat>, b: multiset<nat>, m: multiset<nat>, s: nat)
    requires a + (multiset{s} + b) == m + multiset{s}
    ensures a + b == m
  {
    assert forall t :: (a + (multiset{s} + b))[t] == (a + b)[t] + multiset{s}[t];
    assert forall t :: (m + multiset{s})[t] == m[t] + multiset{s}[t];
    assert forall t :: (a + b)[t] == m[t];
  }

  lemma FreedCounted(p: Pool)
    requires Counted(p) && p.statuses != [] && p.statuses[0].serial in p.jobs
    requires p.statuses[0].serial < p.issued
    ensures Counted(Freed(p))
  {
  }

  lemma FreedDisabled(p: Pool)
    requires Disabled(p) && p.statuses != []
    requires forall w | 0 <= w < |p.workers| :: p.statuses[0].serial !in WorkerJob(p.workers[w])
    ensures Disabled(Freed(p))
  {
  }

  /** A status can be taken without harm exactly if the callback's jobs get free
      identifiers and none goes in front of the job that is being unlinked. */
  lemma ReceiveKeeps(p: Pool, news: seq<Job>)
    requires Inv(p) && Possible(p, Receive(news))
    ensures Inv(ReceiveStatus(p, news)) <==> !Clash(p, Receive(news)) && !Collides(p, Receive(news))
  {
    ReportedJob(p);
    TableKeptUnlessClash(p, news);
    if !Collides(p, Receive(news)) {
      ReceiveRest(p, news);
    } else {
      ReceiveCollides(p, news);
    }
  }

  lemma ReceiveCollides(p: Pool, news: seq<Job>)
    requires Inv(p) && Possible(p, Receive(news)) && p.statuses[0].serial in p.jobs
    requires Collides(p, Receive(news))
    ensures !Numbered(ReceiveStatus(p, news))
  {
    ReceiveShape(p, news);
    AddJobsKeys(Popped(p), news);
    SameIds(ReceiveStatus(p, news).jobs.Keys, p.jobs.Keys - {p.statuses[0].serial}, p.issued, |news|);
  }

  lemma SameIds(now: set<nat>, keys: set<nat>, issued: nat, n: nat)
    requires !Room(keys, issued, n) && forall s | s in keys :: s < issued
    requires forall t: nat :: t in keys || issued <= t < issued + n ==> t in now
    ensures exists s, t :: s in now && t in now && s != t && IdOf(s) == IdOf(t)
  {
    if n > ID_PERIOD {
      assert issued in now && issued + ID_PERIOD in now;
      assert IdOf(issued) == IdOf(issued + ID_PERIOD);
    }
  }

  lemma ReceiveRest(p: Pool, news: seq<Job>)
    requires Inv(p) && Possible(p, Receive(news)) && p.statuses[0].serial in p.jobs
    requires !Collides(p, Receive(news))
    ensures var q := ReceiveStatus(p, news);
            Numbered(q) && Placed(q) && Counted(q) && Disabled(q) && Ending(q) && Piped(q)
  {
    FreedKeeps(p);
    assert Freed(p).jobs.Keys == p.jobs.Keys - {p.statuses[0].serial};
    AddJobsKeep(Freed(p), news);
    FreeingCommutes(Popped(p), p.statuses[0].serial, news);
    ReceiveShape(p, news);
    var b, q := AddJobs(Freed(p), news), ReceiveStatus(p, news);
    assert q == b.(buckets := q.buckets);
    BucketsApart(b, q);
  }

  /** Everything but the table itself is independent of how the buckets are linked. */
  lemma BucketsApart(b: Pool, q: Pool)
    requires q == b.(buckets := q.buckets) && |q.buckets| == HASH_SIZE
    requires Numbered(b) && Placed(b) && Counted(b) && Disabled(b) && Ending(b) && Piped(b)
    ensures Numbered(q) && Placed(q) && Counted(q) && Disabled(q) && Ending(q) && Piped(q)
  {
    forall w | 0 <= w < |q.workers|
      ensures WorkerOk(q, q.workers[w])
    {
      assert WorkerOk(b, b.workers[w]);
    }
  }

  // ----- the other steps ------------------------------------------------------------------

  predicate MayBecome(was: Job, job: Job) {
    && job.op == was.op
    && (job.jstate == was.jstate || (was.jstate == Enabled && job.jstate == JobState.Disabled))
  }

  /** Changing a job in place: only its state before a worker looks matters. */
  lemma JobChangeKeeps(p: Pool, s: nat, job: Job, early: set<nat>)
    requires Inv(p) && s in p.jobs && MayBecome(p.jobs[s], job)
    requires early == if job.jstate == p.jobs[s].jstate then p.early else p.early + {s}
    ensures Inv(p.(jobs := p.jobs[s := job], early := early))
  {
    var q := p.(jobs := p.jobs[s := job], early := early);
    assert q.jobs.Keys == p.jobs.Keys;
    TableSame(p, q);
    JobChangeDisabled(p, q, s, job);
    assert Placed(q) && Counted(q);
  }

  lemma JobChangeDisabled(p: Pool, q: Pool, s: nat, job: Job)
    requires Disabled(p) && Numbered(p) && s in p.jobs && MayBecome(p.jobs[s], job)
    requires q == p.(jobs := p.jobs[s := job],
                     early := if job.jstate == p.jobs[s].jstate then p.early else p.early + {s})
    ensures Disabled(q)
  {
    forall w | 0 <= w < |q.workers|
      ensures WorkerOk(q, q.workers[w])
    {
      assert WorkerOk(p, p.workers[w]);
    }
  }

  lemma DisableKeeps(p: Pool, id: nat)
    requires Inv(p)
    ensures Inv(DisableJob(p, id))
  {
    var found := Lookup(p, id);
    if found != [] && found[0] in p.jobs {
      var s := found[0];
      JobChangeKeeps(p, s, Disabling(p.jobs[s]),
                     if p.jobs[s].jstate == Enabled then p.early + {s} else p.early);
    }
  }

  lemma ChangeKeeps(p: Pool, id: nat, callback: nat)
    requires Inv(p)
    ensures Inv(ChangeJobCallback(p, id, callback))
  {
    var found := Lookup(p, id);
    if found != [] && found[0] in p.jobs {
      JobChangeKeeps(p, found[0], p.jobs[found[0]].(callback := callback), p.early);
    }
  }

  lemma GetPlaced(p: Pool, w: nat)
    requires Placed(p) && Possible(p, Get(w))
    ensures Placed(Step(p, Get(w)))
    ensures p.queue[0].Work? ==> p.queue[0].serial in p.jobs
  {
    var x := if p.queue[0].Exit? then Exited else Got(p.queue[0].serial);
    WorkerUpdate(p.workers, w, x);
    var rest, ws := QueueJobs(p.queue[1..]), WorkerJobs(p.workers);
    assert WorkerJobs(p.workers[w := x]) == ws + ItemJob(p.queue[0]);
    assert rest + (ws + ItemJob(p.queue[0])) == (ItemJob(p.queue[0]) + rest) + ws;
    if p.queue[0].Work? {
      assert QueueJobs(p.queue)[p.queue[0].serial] >= 1;
      assert multiset(p.jobs.Keys)[p.queue[0].serial] >= 1;
    }
  }

  lemma {:induction false} ExitedUpdate(ws: seq<WorkerState>, w: nat, x: WorkerState)
    requires w < |ws|
    ensures ExitedWorkers(ws[w := x]) + (if ws[w].Exited? then 1 else 0)
         == ExitedWorkers(ws) + (if x.Exited? then 1 else 0)
  {
    if w == 0 {
      assert ws[0 := x][1..] == ws[1..];
    } else {
      assert ws[w := x][1..] == ws[1..][w - 1 := x];
      ExitedUpdate(ws[1..], w - 1, x);
    }
  }

  lemma GetEnding(p: Pool, w: nat)
    requires Ending(p) && Possible(p, Get(w))
    ensures Ending(Step(p, Get(w)))
  {
    var x := if p.queue[0].Exit? then Exited else Got(p.queue[0].serial);
    ExitedUpdate(p.workers, w, x);
    assert Exits(p.queue) == (if p.queue[0].Exit? then 1 else 0) + Exits(p.queue[1..]);
  }

  /** A worker changes; the rest of the invariant does not see it. */
  lemma WorkerChangeDisabled(p: Pool, q: Pool, w: nat)
    requires Disabled(p) && w < |p.workers| && |q.workers| == |p.workers|
    requires q.jobs == p.jobs && q.early == p.early && q.disk == p.disk && q.ops == p.ops && q.issued == p.issued
    requires q.workers == p.workers[w := q.workers[w]] && WorkerOk(q, q.workers[w])
    ensures Disabled(q)
  {
  }

  lemma TableSame(p: Pool, q: Pool)
    requires Linked(p) && q.buckets == p.buckets && q.jobs.Keys == p.jobs.Keys
    ensures Linked(q)
  {
  }

  lemma GetKeeps(p: Pool, w: nat)
    requires Inv(p) && Possible(p, Get(w))
    ensures Inv(Step(p, Get(w)))
  {
    var q := Step(p, Get(w));
    GetPlaced(p, w);
    GetEnding(p, w);
    WorkerChangeDisabled(p, q, w);
    TableSame(p, q);
  }

  /** A worker goes on with the job it has. */
  lemma WorkerGoesOn(p: Pool, q: Pool, w: nat, x: WorkerState)
    requires Placed(p) && Counted(p) && Ending(p) && w < |p.workers|
    requires q.queue == p.queue && q.statuses == p.statuses && q.jobs.Keys == p.jobs.Keys
    requires q.reports == p.reports && q.delivered == p.delivered && q.issued == p.issued
    requires q.closing == p.closing && q.workers == p.workers[w := x]
    requires WorkerJob(x) == WorkerJob(p.workers[w]) && !x.Exited? && !p.workers[w].Exited?
    ensures Placed(q) && Counted(q) && Ending(q)
  {
    WorkerUpdate(p.workers, w, x);
    SameLeft(WorkerJobs(q.workers), WorkerJobs(p.workers), WorkerJob(x));
    ExitedUpdate(p.workers, w, x);
  }

  lemma SameLeft(a: multiset<nat>, b: multiset<nat>, c: multiset<nat>)
    requires a + c == b + c
    ensures a == b
  {
    assert forall t :: a[t] + c[t] == (a + c)[t] == (b + c)[t] == b[t] + c[t];
  }

  lemma LookKeeps(p: Pool, w: nat, q: Pool)
    requires Inv(p) && Possible(p, Look(w)) && q == LookAt(p, w)
    ensures Inv(q)
  {
    LookTable(p, w, q);
    LookDisabled(p, q, w);
    WorkerGoesOn(p, q, w, q.workers[w]);
  }

  lemma LookTable(p: Pool, w: nat, q: Pool)
    requires Numbered(p) && Linked(p) && Possible(p, Look(w)) && q == LookAt(p, w)
    ensures Numbered(q) && Linked(q) && q.jobs.Keys == p.jobs.Keys
  {
  }

  lemma LookDisabled(p: Pool, q: Pool, w: nat)
    requires Disabled(p) && Possible(p, Look(w)) && q == LookAt(p, w)
    ensures Disabled(q)
  {
    forall v | 0 <= v < |q.workers|
      ensures WorkerOk(q, q.workers[v])
    {
      assert WorkerOk(p, p.workers[v]);
    }
  }

  lemma RunKeeps(p: Pool, w: nat, status: nat)
    requires Inv(p) && Possible(p, RunJob(w, status))
    ensures Inv(Step(p, RunJob(w, status)))
  {
    var q := Step(p, RunJob(w, status));
    TableSame(p, q);
    RunDisabled(p, q, w, status);
    WorkerGoesOn(p, q, w, q.workers[w]);
  }

  lemma RunDisabled(p: Pool, q: Pool, w: nat, status: nat)
    requires Disabled(p) && Numbered(p) && Possible(p, RunJob(w, status)) && q == Step(p, RunJob(w, status))
    ensures Disabled(q)
  {
    assert WorkerOk(p, p.workers[w]);
    forall v | 0 <= v < |q.workers|
      ensures WorkerOk(q, q.workers[v])
    {
      assert WorkerOk(p, p.workers[v]);
    }
  }

  lemma SendKeeps(p: Pool, w: nat)
    requires Inv(p) && Possible(p, Send(w))
    ensures Inv(Step(p, Send(w)))
  {
    var q := Step(p, Send(w));
    var s := p.workers[w].serial;
    ExitedUpdate(p.workers, w, Waiting);
    TableSame(p, q);
    WorkerChangeDisabled(p, q, w);
    SendPlaced(p, q, w);
  }

  lemma SendPlaced(p: Pool, q: Pool, w: nat)
    requires Placed(p) && Counted(p) && Possible(p, Send(w)) && q == Step(p, Send(w))
    ensures Placed(q) && Counted(q)
  {
    var s := p.workers[w].serial;
    StatusAppend(p.statuses, Report(s, p.workers[w].status));
    WorkerUpdate(p.workers, w, Waiting);
    assert WorkerJobs(q.workers) + multiset{s} == WorkerJobs(p.workers);
    MoveOne(QueueJobs(p.queue), WorkerJobs(q.workers), StatusJobs(p.statuses), p.delivered, multiset{s});
  }

  lemma MoveOne(a: multiset<nat>, b: multiset<nat>, c: multiset<nat>, d: multiset<nat>, s: multiset<nat>)
    ensures a + b + (c + s) == a + (b + s) + c
    ensures (c + d) + s == (c + s) + d
  {
  }

  lemma {:induction false} ExitTokens(n: nat)
    ensures QueueJobs(seq(n, _ => Exit)) == multiset{} && Exits(seq(n, _ => Exit)) == n
  {
    if n > 0 {
      assert seq(n, _ => Exit)[1..] == seq(n - 1, _ => Exit);
      ExitTokens(n - 1);
    }
  }

  lemma {:induction false} QueueConcat(q: seq<Item>, r: seq<Item>)
    ensures QueueJobs(q + r) == QueueJobs(q) + QueueJobs(r)
  {
    if q == [] {
      assert q + r == r;
    } else {
      assert (q + r)[1..] == q[1..] + r;
      QueueConcat(q[1..], r);
    }
  }

  lemma DeleteKeeps(p: Pool, q: Pool)
    requires Inv(p) && !p.closing && q == StartDelete(p)
    ensures Inv(q)
  {
    var tokens := seq(|p.workers|, _ => Exit);
    ExitTokens(|p.workers|);
    QueueConcat(p.queue, tokens);
    DeleteEnding(p, q);
    TableSame(p, q);
    DeleteDisabled(p, q);
  }

  lemma DeleteEnding(p: Pool, q: Pool)
    requires Ending(p) && !p.closing && q == StartDelete(p)
    ensures Ending(q)
  {
    ExitTokens(|p.workers|);
    ExitsAppend(p.queue, seq(|p.workers|, _ => Exit));
    NoExits(p.queue);
  }

  lemma DeleteDisabled(p: Pool, q: Pool)
    requires Disabled(p) && q == StartDelete(p)
    ensures Disabled(q)
  {
  }

  /** A submission keeps the pool in order exactly if no outstanding job has the
      identifier that the counter has come round to. */
  lemma SubmitKeeps(p: Pool, op: Op, callback: nat)
    requires Inv(p) && !p.closing
    ensures Inv(AddJob(p, op, callback)) <==> forall s | s in p.jobs :: IdOf(s) != IdOf(p.issued)
  {
    var q := AddJob(p, op, callback);
    if forall s | s in p.jobs :: IdOf(s) != IdOf(p.issued) {
      AddJobLinked(p, op, callback);
      AddJobKeeps(p, op, callback);
    } else {
      var s :| s in p.jobs && IdOf(s) == IdOf(p.issued);
      assert s in q.jobs && p.issued in q.jobs && s != p.issued;
    }
  }

  /** Every step keeps the pool in order, unless it clashes or collides; and no step that
      does, keeps it. */
  lemma StepKeeps(p: Pool, ev: Event)
    requires Inv(p) && Possible(p, ev)
    ensures Inv(Step(p, ev)) <==> !Clash(p, ev) && !Collides(p, ev)
  {
    match ev {
      case Submit(op, callback) => SubmitKeeps(p, op, callback);
      case Disable(id) => DisableKeeps(p, id);
      case ChangeCallback(id, callback) => ChangeKeeps(p, id, callback);
      case Receive(news) => ReceiveKeeps(p, news);
      case Get(w) => GetKeeps(p, w);
      case Look(w) => LookKeeps(p, w, LookAt(p, w));
      case RunJob(w, status) => RunKeeps(p, w, status);
      case Send(w) => SendKeeps(p, w);
      case Delete => DeleteKeeps(p, StartDelete(p));
    }
  }

  lemma {:induction false} AllWaiting(n: nat)
    ensures WorkerJobs(seq(n, _ => Waiting)) == multiset{}
    ensures ExitedWorkers(seq(n, _ => Waiting)) == 0
  {
    if n > 0 {
      assert seq(n, _ => Waiting)[1..] == seq(n - 1, _ => Waiting);
      AllWaiting(n - 1);
    }
  }

  lemma NewInv(workers: nat)
    ensures Inv(New(workers))
  {
    AllWaiting(workers);
  }

  lemma {:induction false} RunInv(p: Pool, evs: seq<Event>)
    requires Inv(p) && IsRun(p, evs, true)
    ensures Inv(After(p, evs, true))
    decreases |evs|
  {
    if evs != [] {
      StepKeeps(p, evs[0]);
      RunInv(Step(p, evs[0]), evs[1..]);
    }
  }

  // ----- theorems ---------------------------------------------------------------------------

  /** In every smooth run: a job that has not been delivered is in the table,
      exactly once, under its identifier; a delivered job was reported once, delivered
      once, and is in no bucket. */
  lemma JobsReportedOnce(workers: nat, evs: seq<Event>, s: nat)
    requires IsRun(New(workers), evs, true)
    ensures var p := After(New(workers), evs, true);
            && |p.buckets| == HASH_SIZE
            && (s in p.jobs ==> p.delivered[s] == 0 && Lookup(p, IdOf(s)) == [s])
            && (s < p.issued && s !in p.jobs
                ==> p.delivered[s] == 1 && p.reports[s] == 1
                    && forall h | 0 <= h < HASH_SIZE :: s !in p.buckets[h])
  {
    NewInv(workers);
    RunInv(New(workers), evs);
    var p := After(New(workers), evs, true);
    OncePlaced(p, s);
    if s in p.jobs {
      FoundInBucket(p, s);
    }
    forall h | 0 <= h < HASH_SIZE && s !in p.jobs
      ensures s !in p.buckets[h]
    {
      assert BucketOk(p.buckets[h], p.jobs.Keys, h);
    }
  }

  lemma OncePlaced(p: Pool, s: nat)
    requires Placed(p) && Counted(p)
    ensures StatusJobs(p.statuses)[s] <= (if s in p.jobs then 1 else 0)
  {
    var m := multiset(p.jobs.Keys);
    assert m[s] == (if s in p.jobs then 1 else 0);
    assert m[s] == QueueJobs(p.queue)[s] + WorkerJobs(p.workers)[s] + StatusJobs(p.statuses)[s];
  }
}
