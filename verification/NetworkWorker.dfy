/** The network worker thread with its connection objects: every event changes the objects
    and the pool's jobs as the transition of the same name says, so what is proved of all
    runs holds of the objects. */
module NetworkWorker {
  import opened Common
  import opened Entry
  import opened Worker
  import opened WorkerSafety
  import opened WorkerAborts
  import opened ChunkserverEntryObject

  lemma Delivered(s: Worker, j: nat, env: Env, clashes: bool)
    requires HasCallback(s, j) && (clashes <==> InTheWay(s, j))
    ensures var target := s.jobs[j].target.value;
            var r := RunCallback(s.entries[target.entry], target.callback, s.jobs[j].phase.status, env, s.nextJob);
            DeliverJob(s, j, env) == Return(s.(jobs := s.jobs - {j}), target.entry, r, clashes)
  {
  }

  /** A job is in a new phase; it may have opened the chunk for a connection. */
  function Progressed(s: Worker, j: nat, phase: Phase, owner: Option<nat>): Worker
    requires j in s.jobs
  {
    s.(jobs := s.jobs[j := s.jobs[j].(phase := phase)],
       opens := if owner.Some? then s.opens[owner.value := Count(s.opens, owner.value) + 1] else s.opens)
  }

  lemma Worked(s: Worker, ev: Event)
    requires (ev.Start? || ev.Finish?) && Possible(s, ev)
    ensures ev.job in s.jobs
    ensures ev.Start? ==> Step(s, ev) == Progressed(s, ev.job, InProgress, None)
    ensures var job := s.jobs[ev.job];
            var open := job.target.Some? && Opens(job.op) && ev.Finish? && ev.status == STATUS_OK;
            ev.Finish?
            ==> Step(s, ev)
                == Progressed(s, ev.job, Done(ev.status), if open then Some(job.target.value.entry) else None)
  {
  }

  /** A polite run that ends in a state. */
  ghost predicate Reaches(evs: seq<Event>, s: Worker) {
    IsPoliteRun(Initial(), evs) && IsRun(Initial(), evs) && s == After(Initial(), evs)
  }

  lemma ErasedOne(evs: seq<Event>, s: Worker, id: nat)
    requires Reaches(evs, s) && !s.aborted && id in s.entries && s.entries[id].state == Closed
    ensures Reaches(evs + [Erase(id)], s.(entries := s.entries - {id}))
  {
    RunGoesOn(Initial(), evs, Erase(id));
  }

  lemma {:induction false} ErasedRun(evs: seq<Event>, s: Worker, gone: set<nat>) returns (more: seq<Event>)
    requires Reaches(evs, s) && !s.aborted
    requires gone <= s.entries.Keys && forall id | id in gone :: s.entries[id].state == Closed
    ensures Reaches(more, s.(entries := s.entries - gone))
    decreases |gone|
  {
    if gone == {} {
      assert s.entries - gone == s.entries;
      return evs;
    }
    var id :| id in gone;
    ErasedOne(evs, s, id);
    var t := s.(entries := s.entries - {id});
    assert t.entries - (gone - {id}) == s.entries - gone;
    more := ErasedRun(evs + [Erase(id)], t, gone - {id});
  }

  class NetworkWorkerThread {
    var entries: map<nat, ChunkserverEntry>
    var jobs: map<nat, Job>
    var nextJob: nat
    var nextEntry: nat
    var dangling: bool
    var polled: set<nat>
    var aborted: bool
    ghost var opens: map<nat, nat>
    ghost var closes: map<nat, nat>

    ghost function Conns(): (m: map<nat, Conn>)
      reads this, entries.Values
      ensures m.Keys == entries.Keys && forall id | id in entries :: m[id] == entries[id].View()
    {
      map id | id in entries :: entries[id].View()
    }

    ghost function View(): Worker
      reads this, entries.Values
    {
      Worker(Conns(), jobs, nextJob, nextEntry, opens, closes, dangling, polled, aborted)
    }

    /** Each connection has an object of its own. */
    ghost predicate Valid()
      reads this
    {
      forall a, b | a in entries && b in entries && a != b :: entries[a] != entries[b]
    }

    constructor ()
      ensures Valid() && View() == Initial() && entries == map[]
    {
      entries, jobs := map[], map[];
      nextJob, nextEntry, dangling := 1, 0, false;
      polled, aborted := {}, false;
      opens, closes := map[], map[];
    }

    /** What a handler asks of the pool. */
    method Serve(id: nat, eff: Effect)
      modifies `jobs, `nextJob, `closes, `aborted
      ensures jobs == JobsAfter(old(jobs), old(nextJob), id, eff)
      ensures nextJob == if eff.Submit? then old(nextJob) + 1 else old(nextJob)
      ensures closes == ClosesAfter(old(closes), id, eff) && (aborted <==> old(aborted) || eff == Abort)
    {
      match eff {
        case NoEffect =>
        case Submit(op, callback) =>
          jobs := jobs[nextJob := NewJob(op, callback, id)];
          nextJob := nextJob + 1;
          if op.OpClose? {
            closes := closes[id := Count(closes, id) + 1];
          }
        case Redirect(j) =>
          if j in jobs {
            jobs := jobs[j := Redirected(jobs[j], id)];
          }
        case Abort => aborted := true;
      }
    }

    method Insert(entry: ChunkserverEntry)
      requires Valid() && entry !in entries.Values && entry.View() == Fresh()
      modifies `entries, `nextEntry
      ensures Valid() && entries == old(entries)[old(nextEntry) := entry]
      ensures View() == AddConnection(old(View()))
    {
      ghost var s := View();
      entries := entries[nextEntry := entry];
      nextEntry := nextEntry + 1;
      assert Conns() == s.entries[s.nextEntry := Fresh()];
    }

    /** A new connection is put into the list. */
    method NewConnection()
      requires Valid()
      modifies this
      ensures Valid() && View() == AddConnection(old(View()))
      ensures fresh(entries.Values - old(entries.Values))
    {
      var entry := new ChunkserverEntry();
      Insert(entry);
    }

    /** A connection that asks to be closed gives up its jobs. */
    method Close(entry: ChunkserverEntry, eff: Effect) returns (r: Effect)
      modifies entry
      ensures (entry.View(), r) == Settled((old(entry.View()), eff))
    {
      r := eff;
      if eff == NoEffect && (entry.state == State.Close || (entry.state == WriteFinish && entry.out == [])) {
        r := entry.CloseJobs();
      }
    }

    /** What the sockets of one connection report. */
    method HandleSocket(entry: ChunkserverEntry, ev: Event) returns (eff: Effect)
      requires OfSocket(ev) && (ev.PacketSent? ==> entry.out != [])
      modifies entry
      ensures (entry.View(), eff) == Handled(old(entry.View()), ev, nextJob)
    {
      match ev {
        case ClientPacket(_, p, env) =>
          eff := entry.Input(p, env, nextJob);
          eff := Close(entry, eff);
        case ServerPacket(_, p) =>
          eff := entry.GotPacket(p, Env(Refused, false), nextJob);
          eff := Close(entry, eff);
        case Connected(_) =>
          entry.state := WriteInit;
          eff := NoEffect;
        case InitSent(_) =>
          entry.state := WriteForward;
          eff := NoEffect;
        case ForwardFailed(_) =>
          eff := entry.ForwardError();
          eff := Close(entry, eff);
        case PacketSent(_, env) =>
          eff := entry.PacketSent(env, nextJob);
          eff := Close(entry, eff);
        case Drop(_) => eff := entry.CloseJobs();
        case Settle(_) => eff := entry.CloseJobs();
      }
    }

    /** One handler has run on one object: the thread is what the transition makes of it. */
    method Conclude(id: nat, entry: ChunkserverEntry, eff: Effect, ghost s: Worker)
      requires Valid() && id in entries && entries[id] == entry
      requires View() == s.(entries := s.entries[id := entry.View()])
      modifies `jobs, `nextJob, `closes, `aborted
      ensures Valid() && View() == Apply(s, id, (entry.View(), eff))
    {
      Serve(id, eff);
    }

    method HandleEntry(ev: Event) returns (eff: Effect)
      requires Valid() && OfSocket(ev) && ev.id in entries && (ev.PacketSent? ==> entries[ev.id].out != [])
      modifies entries[ev.id]
      ensures Valid()
      ensures (entries[ev.id].View(), eff) == Handled(old(entries[ev.id].View()), ev, nextJob)
      ensures View() == old(View()).(entries := old(View()).entries[ev.id := entries[ev.id].View()])
    {
      ghost var s := View();
      eff := HandleSocket(entries[ev.id], ev);
      assert Conns() == s.entries[ev.id := entries[ev.id].View()];
    }

    method ServeSocket(ev: Event)
      requires Valid() && OfSocket(ev) && ev.id in entries && (ev.PacketSent? ==> entries[ev.id].out != [])
      modifies `jobs, `nextJob, `closes, `aborted, entries[ev.id]
      ensures Valid()
      ensures View() == Apply(old(View()), ev.id, Handled(old(entries[ev.id].View()), ev, old(nextJob)))
    {
      ghost var s := View();
      var eff := HandleEntry(ev);
      Conclude(ev.id, entries[ev.id], eff, s);
    }

    method Look(id: nat)
      requires Valid()
      modifies `polled
      ensures Valid() && View() == LookAt(old(View()), id)
    {
      polled := polled - {id};
    }

    method ServeAndLook(ev: Event)
      requires Valid() && OfSocket(ev) && ev.id in entries && (ev.PacketSent? ==> entries[ev.id].out != [])
      modifies `jobs, `nextJob, `closes, `aborted, `polled, entries[ev.id]
      ensures Valid()
      ensures View()
           == LookAt(Apply(old(View()), ev.id, Handled(old(entries[ev.id].View()), ev, old(nextJob))), ev.id)
    {
      ServeSocket(ev);
      Look(ev.id);
    }

    method Socket(ev: Event)
      requires Valid() && OfSocket(ev) && Possible(View(), ev)
      modifies this, entries.Values
      ensures Valid() && entries == old(entries) && View() == Step(old(View()), ev)
    {
      SocketEvent(View(), ev);
      ServeAndLook(ev);
    }

    /** The sockets to other chunkservers that are polled in the next round. */
    method PreparePoll()
      requires Valid()
      modifies `polled
      ensures Valid() && polled == set id | id in entries && Forwards(entries[id].View())
    {
      polled := {};
      var ids := entries.Keys;
      while ids != {}
        invariant ids <= entries.Keys
        invariant forall id :: id in polled <==> id in entries && id !in ids && Forwards(entries[id].View())
        decreases |ids|
      {
        var id :| id in ids;
        ids := ids - {id};
        if Forwards(entries[id].View()) {
          polled := polled + {id};
        }
      }
    }

    method NextRound()
      requires Valid() && Possible(View(), Poll)
      modifies `polled
      ensures Valid() && View() == Step(old(View()), Poll)
    {
      PreparePoll();
    }

    method RunCallback(entry: ChunkserverEntry, callback: Callback, status: Status, env: Env)
      returns (eff: Effect)
      modifies entry
      ensures (entry.View(), eff) == Entry.RunCallback(old(entry.View()), callback, status, env, nextJob)
    {
      match callback {
        case ReadFinished => eff := entry.ReadFinishedCallback(status, env, nextJob);
        case WriteFinished => eff := entry.WriteFinishedCallback(status, env, nextJob);
        case BlocksFinished =>
          entry.GetBlocksFinishedCallback(status);
          eff := NoEffect;
        case DelayedClose => eff := entry.DelayedCloseCallback(status);
      }
    }

    /** Whether a job is the newest of its bucket. */
    method IsAtHead(j: nat) returns (head: bool)
      requires Valid()
      ensures head <==> AtHead(View(), j)
    {
      head := true;
      var rest := jobs.Keys;
      while rest != {}
        invariant rest <= jobs.Keys
        invariant head <==> forall k | k in jobs && k !in rest && !jobs[k].lost && Bucket(k) == Bucket(j) :: k <= j
        decreases |rest|
      {
        var k :| k in rest;
        if !jobs[k].lost && Bucket(k) == Bucket(j) && k > j {
          head := false;
        }
        rest := rest - {k};
      }
    }

    method CallEntry(id: nat, callback: Callback, status: Status, env: Env) returns (eff: Effect)
      requires Valid() && id in entries
      modifies entries[id]
      ensures Valid()
      ensures (entries[id].View(), eff) == Entry.RunCallback(old(entries[id].View()), callback, status, env, nextJob)
      ensures View() == old(View()).(entries := old(View()).entries[id := entries[id].View()])
    {
      ghost var s := View();
      eff := RunCallback(entries[id], callback, status, env);
      assert Conns() == s.entries[id := entries[id].View()];
    }

    method Call(id: nat, callback: Callback, status: Status, env: Env) returns (submits: bool)
      requires Valid() && id in entries
      modifies `jobs, `nextJob, `closes, `aborted, entries[id]
      ensures Valid()
      ensures var r := Entry.RunCallback(old(entries[id].View()), callback, status, env, old(nextJob));
              View() == Apply(old(View()), id, r) && submits == r.1.Submit?
    {
      ghost var s := View();
      var eff := CallEntry(id, callback, status, env);
      Conclude(id, entries[id], eff, s);
      submits := eff.Submit?;
    }

    /** The place that pointed to the called job gets its successor, and with it goes a job
        that the callback has put in front. */
    method Unlink(n: nat, clash: bool)
      requires Valid()
      modifies `jobs
      ensures Valid() && View() == if clash then Lose(old(View()), n) else old(View())
    {
      if clash && n in jobs {
        jobs := jobs[n := jobs[n].(lost := true)];
      }
    }

    method CallAndUnlink(id: nat, callback: Callback, status: Status, env: Env, clashes: bool)
      requires Valid() && id in entries
      modifies `jobs, `nextJob, `closes, `aborted, entries[id]
      ensures Valid()
      ensures var r := Entry.RunCallback(old(entries[id].View()), callback, status, env, old(nextJob));
              View() == Return(old(View()), id, r, clashes)
    {
      var n := nextJob;
      var submits := Call(id, callback, status, env);
      Unlink(n, submits && clashes);
    }

    method Detach(j: nat)
      requires Valid()
      modifies `jobs
      ensures Valid() && View() == old(View()).(jobs := old(View()).jobs - {j})
    {
      jobs := jobs - {j};
    }

    method DetachAndCall(j: nat, target: Target, status: Status, env: Env, clashes: bool)
      requires Valid() && target.entry in entries
      modifies `jobs, `nextJob, `closes, `aborted, entries[target.entry]
      ensures Valid()
      ensures var e := old(entries[target.entry].View());
              View() == Return(old(View()).(jobs := old(View()).jobs - {j}), target.entry,
                               Entry.RunCallback(e, target.callback, status, env, old(nextJob)), clashes)
    {
      Detach(j);
      CallAndUnlink(target.entry, target.callback, status, env, clashes);
    }

    method CallBack(j: nat, env: Env)
      requires Valid() && HasCallback(View(), j)
      modifies this, entries.Values
      ensures Valid() && entries == old(entries) && View() == DeliverJob(old(View()), j, env)
    {
      var clashes := IsAtHead(j);
      clashes := clashes && Bucket(nextJob) == Bucket(j);
      Delivered(View(), j, env, clashes);
      DetachAndCall(j, jobs[j].target.value, jobs[j].phase.status, env, clashes);
    }

    /** The status of a job is received: its callback runs, and the job is unlinked. */
    method CheckJob(j: nat, env: Env)
      requires Valid() && Possible(View(), Deliver(j, env))
      modifies this, entries.Values
      ensures Valid() && entries == old(entries) && View() == DeliverJob(old(View()), j, env)
    {
      var job := jobs[j];
      if job.lost {
        return;
      }
      if job.target.None? {
        jobs := jobs - {j};
      } else if job.target.value.entry !in entries {
        jobs := jobs - {j};
        dangling := true;
      } else {
        CallBack(j, env);
      }
    }

    method Progress(j: nat, phase: Phase, owner: Option<nat>)
      requires Valid() && j in jobs
      modifies `jobs, `opens
      ensures Valid() && View() == Progressed(old(View()), j, phase, owner)
    {
      jobs := jobs[j := jobs[j].(phase := phase)];
      if owner.Some? {
        opens := opens[owner.value := Count(opens, owner.value) + 1];
      }
    }

    /** A worker of the pool starts a job, or has done it. */
    method Work(ev: Event)
      requires Valid() && (ev.Start? || ev.Finish?) && Possible(View(), ev)
      modifies `jobs, `opens
      ensures Valid() && View() == Step(old(View()), ev)
    {
      Worked(View(), ev);
      if ev.Start? {
        Progress(ev.job, InProgress, None);
      } else {
        var job := jobs[ev.job];
        var open := job.target.Some? && Opens(job.op) && ev.status == STATUS_OK;
        Progress(ev.job, Done(ev.status), if open then Some(job.target.value.entry) else None);
      }
    }

    method EraseEntry(id: nat)
      requires Valid() && id in entries
      modifies `entries
      ensures Valid() && entries == old(entries) - {id}
      ensures View() == old(View()).(entries := old(View()).entries - {id})
    {
      ghost var s := View();
      entries := entries - {id};
      assert Conns() == s.entries - {id};
    }

    method Happen(ev: Event)
      requires Valid() && Possible(View(), ev)
      modifies this, entries.Values
      ensures Valid() && View() == Step(old(View()), ev)
      ensures fresh(entries.Values - old(entries.Values))
    {
      if OfSocket(ev) {
        Socket(ev);
      } else if ev.Accept? {
        NewConnection();
      } else if ev.Deliver? {
        CheckJob(ev.job, ev.env);
      } else if ev.Erase? {
        EraseEntry(ev.id);
      } else if ev.Poll? {
        NextRound();
      } else {
        Work(ev);
      }
    }

    method Advance(ghost evs: seq<Event>, ev: Event)
      requires Valid() && Reaches(evs, View()) && Possible(View(), ev) && Polite(View(), ev)
      modifies this, entries.Values
      ensures Valid() && View() == Step(old(View()), ev) && Reaches(evs + [ev], View())
      ensures fresh(entries.Values - old(entries.Values))
    {
      RunGoesOn(Initial(), evs, ev);
      Happen(ev);
    }

    /** The end of a poll round: the closed connections, and no others, are erased from the
        list. */
    method EraseClosed()
      requires Valid()
      modifies `entries
      ensures Valid() && Remains(old(entries), entries)
      ensures forall id | id in old(entries) :: id in entries <==> old(entries)[id].state != Closed
    {
      ghost var was := entries;
      var ids := entries.Keys;
      while ids != {}
        invariant Remains(was, entries) && ids <= was.Keys
        invariant forall id | id in was :: id in entries <==> id in ids || was[id].state != Closed
        decreases |ids|
      {
        var id :| id in ids;
        ids := ids - {id};
        if entries[id].state == Closed {
          entries := entries - {id};
        }
      }
    }
  }

  /** What is left of the connections. */
  ghost predicate Remains(was: map<nat, ChunkserverEntry>, now: map<nat, ChunkserverEntry>) {
    forall id | id in now :: id in was && now[id] == was[id]
  }

  /** The facts that every run leaves behind, of the objects themselves. */
  ghost predicate Safe(w: NetworkWorkerThread)
    reads w, w.entries.Values
  {
    && !w.dangling
    && (forall j | j in w.jobs && w.jobs[j].target.Some? :: CallsLive(w, j))
    && (forall id | id in w.entries && w.entries[id].state == Idle :: Count(w.opens, id) == Count(w.closes, id))
    && (forall id | id !in w.entries :: Count(w.opens, id) == Count(w.closes, id))
  }

  /** The job would call back a connection that is there, is not closed and has recorded it. */
  ghost predicate CallsLive(w: NetworkWorkerThread, j: nat)
    requires j in w.jobs && w.jobs[j].target.Some?
    reads w, w.entries.Values
  {
    var id := w.jobs[j].target.value.entry;
    id in w.entries && w.entries[id].state != Closed && RecordedJob(w.entries[id].View()) == j
  }

  lemma RunIsSafe(w: NetworkWorkerThread, evs: seq<Event>)
    requires Reaches(evs, w.View())
    ensures Safe(w)
  {
    forall j | j in w.jobs && w.jobs[j].target.Some?
      ensures CallsLive(w, j)
    {
      NoDanglingCallback(evs, j, j);
    }
    NoDanglingCallback(evs, 0, 0);
    forall id
      ensures id !in w.entries || w.entries[id].state == Idle ==> Count(w.opens, id) == Count(w.closes, id)
    {
      OpensAreClosed(evs, id);
    }
  }

  /** What a poll round leaves: the closed connections are gone, unless an assertion has
      failed. */
  ghost function RoundEnded(s: Worker): Worker {
    if s.aborted then s
    else s.(entries := map id | id in s.entries && s.entries[id].state != Closed :: s.entries[id])
  }

  /** A thread of objects that goes through any polite run, of any number of connections, and
      then erases its closed connections is what the run leads to. So no callback has run for
      an erased connection, every job that will call back calls a live connection that has
      recorded it, every connection that is idle or erased has closed what it opened; and an
      assertion has failed exactly if one of the steps was of the kind that fails. */
  method ServeRun(evs: seq<Event>) returns (w: NetworkWorkerThread)
    requires IsPoliteRun(Initial(), evs)
    ensures IsRun(Initial(), evs)
    ensures fresh(w) && w.Valid() && w.View() == RoundEnded(After(Initial(), evs))
    ensures Safe(w) && (w.aborted <==> SomeStepFails(Initial(), evs))
  {
    w := RunAll(evs);
    AbortsIff(evs);
    if w.aborted {
      RunIsSafe(w, evs);
    } else {
      EndRound(w, evs);
    }
  }

  lemma GoneIsEnded(s: Worker, gone: set<nat>)
    requires !s.aborted && forall id :: id in gone <==> id in s.entries && s.entries[id].state == Closed
    ensures s.(entries := s.entries - gone) == RoundEnded(s)
  {
    assert s.entries - gone == RoundEnded(s).entries;
  }

  method EraseAll(w: NetworkWorkerThread) returns (ghost gone: set<nat>)
    requires w.Valid()
    modifies w`entries
    ensures w.Valid() && w.View() == old(w.View()).(entries := old(w.View()).entries - gone)
    ensures forall id :: id in gone <==> id in old(w.View()).entries && old(w.View()).entries[id].state == Closed
  {
    ghost var s := w.View();
    w.EraseClosed();
    gone := s.entries.Keys - w.entries.Keys;
    assert w.Conns() == s.entries - gone;
  }

  method EndRound(w: NetworkWorkerThread, ghost evs: seq<Event>)
    requires w.Valid() && Reaches(evs, w.View()) && !w.aborted
    modifies w`entries
    ensures w.Valid() && Safe(w) && w.View() == RoundEnded(old(w.View()))
  {
    ghost var s := w.View();
    ghost var gone := EraseAll(w);
    GoneIsEnded(s, gone);
    ghost var more := ErasedRun(evs, s, gone);
    RunIsSafe(w, more);
  }

  method RunAll(evs: seq<Event>) returns (w: NetworkWorkerThread)
    requires IsPoliteRun(Initial(), evs)
    ensures fresh(w) && w.Valid() && Reaches(evs, w.View())
  {
    w := new NetworkWorkerThread();
    assert evs[..0] == [] && evs[0..] == evs;
    for i := 0 to |evs|
      invariant fresh(w) && w.Valid() && fresh(w.entries.Values)
      invariant IsPoliteRun(w.View(), evs[i..])
      invariant Reaches(evs[..i], w.View())
    {
      assert evs[i..][0] == evs[i] && evs[i..][1..] == evs[i + 1..] && evs[..i + 1] == evs[..i] + [evs[i]];
      w.Advance(evs[..i], evs[i]);
    }
    assert evs[..|evs|] == evs;
  }
}
