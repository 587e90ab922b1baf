/** What holds after every run of a network worker thread. */
module WorkerSafety {
  import opened Common
  import opened Entry
  import opened Worker

  /** The invariant, with one connection and its job singled out. */
  lemma SingleOut(s: Worker, id: nat)
    requires Core(s) && id in s.entries && s.entries[id].state != Closed
    ensures InvExcept(s, id, RecordedJob(s.entries[id]))
    ensures RecordedJob(s.entries[id]) in s.jobs <==> CurrentJob(s, id).Some?
    ensures EntryInv(s, id)
  {
    assert EntryInv(s, id);
    forall j | j in s.jobs && s.jobs[j].target.Some?
      ensures OwnedBy(s, j, s.jobs[j].target.value.entry)
    {
    }
  }

  lemma SocketStep(s: Worker, id: nat, r: (Conn, Effect))
    requires Core(s) && id in s.entries && s.entries[id].state != Closed
    requires Keeps(r, id, CurrentJob(s, id), RecordedJob(s.entries[id]), s.nextJob,
                   Count(s.opens, id), Count(s.closes, id), false)
    ensures Core(Apply(s, id, r))
  {
    SingleOut(s, id);
    ApplyKeepsInv(s, id, r, CurrentJob(s, id), RecordedJob(s.entries[id]));
  }

  lemma SettledStep(s: Worker, id: nat, r: (Conn, Effect))
    requires Core(s) && id in s.entries && s.entries[id].state != Closed
    requires Keeps(r, id, CurrentJob(s, id), RecordedJob(s.entries[id]), s.nextJob,
                   Count(s.opens, id), Count(s.closes, id), true)
    ensures Core(Apply(s, id, Settled(r))) && Settled(r).1 != Abort
  {
    SettledKeeps(r, id, CurrentJob(s, id), RecordedJob(s.entries[id]), s.nextJob,
                 Count(s.opens, id), Count(s.closes, id));
    SocketStep(s, id, Settled(r));
  }

  lemma PacketStep(s: Worker, ev: Event)
    requires Core(s) && Possible(s, ev) && Polite(s, ev)
    requires ev.ClientPacket? || ev.ServerPacket? || ev.PacketSent?
    ensures Core(Apply(s, ev.id, Handled(s.entries[ev.id], ev, s.nextJob)))
    ensures Handled(s.entries[ev.id], ev, s.nextJob).1 != Abort
  {
    var id := ev.id;
    var e, job := s.entries[id], CurrentJob(s, id);
    var opens, closes := Count(s.opens, id), Count(s.closes, id);
    SingleOut(s, id);
    match ev {
      case ClientPacket(_, p, env) =>
        InputKeeps(e, p, id, job, env, s.nextJob, opens, closes);
        SettledStep(s, id, OnInput(e, p, env, s.nextJob));
      case ServerPacket(_, p) =>
        ServerPacketKeeps(e, p, id, job, Env(Refused, false), s.nextJob, opens, closes);
        SettledStep(s, id, GotPacket(e, p, Env(Refused, false), s.nextJob));
      case PacketSent(_, env) =>
        SentKeeps(e, id, job, env, s.nextJob, opens, closes);
        SettledStep(s, id, OnPacketSent(e, env, s.nextJob));
    }
  }

  lemma ForwardStep(s: Worker, ev: Event)
    requires Core(s) && Possible(s, ev) && (ev.Connected? || ev.InitSent?)
    ensures Core(Apply(s, ev.id, Handled(s.entries[ev.id], ev, s.nextJob)))
    ensures Handled(s.entries[ev.id], ev, s.nextJob).1 != Abort
  {
    var id := ev.id;
    var e := s.entries[id];
    SingleOut(s, id);
    SocketStep(s, id, (e.(state := if ev.Connected? then WriteInit else WriteForward), NoEffect));
  }

  lemma ErrorKeeps(e: Conn, id: nat, job: Option<Job>, next: nat, opens: nat, closes: nat)
    requires next > 0 && LocalInv(e, job, opens, closes) && MayForward(e) && e.serializer
    ensures Keeps(OnForwardError(e), id, job, RecordedJob(e), next, opens, closes, true)
  {
  }

  lemma ForwardErrorStep(s: Worker, id: nat)
    requires Inv(s) && Possible(s, ForwardFailed(id))
    ensures Core(Apply(s, id, Handled(s.entries[id], ForwardFailed(id), s.nextJob)))
    ensures Handled(s.entries[id], ForwardFailed(id), s.nextJob).1 == Abort <==> !s.entries[id].serializer
  {
    var e := s.entries[id];
    SingleOut(s, id);
    if e.serializer {
      ErrorKeeps(e, id, CurrentJob(s, id), s.nextJob, Count(s.opens, id), Count(s.closes, id));
      SettledStep(s, id, OnForwardError(e));
    } else {
      AbortStep(s, id);
    }
  }

  lemma AbortStep(s: Worker, id: nat)
    requires Core(s) && id in s.entries
    ensures Core(Apply(s, id, (s.entries[id], Abort)))
  {
    var t := Apply(s, id, (s.entries[id], Abort));
    assert t.entries == s.entries;
    SameCore(s, t);
  }

  lemma SameCore(s: Worker, t: Worker)
    requires Core(s) && t == s.(polled := t.polled, aborted := t.aborted)
    ensures Core(t)
  {
    forall id | id in t.entries
      ensures EntryInv(t, id)
    {
      assert EntryInv(s, id);
    }
    forall j | j in t.jobs && t.jobs[j].target.Some?
      ensures OwnedBy(t, j, t.jobs[j].target.value.entry)
    {
      assert OwnedBy(s, j, s.jobs[j].target.value.entry);
    }
    forall id | id !in t.entries
      ensures Balanced(t, id)
    {
      assert Balanced(s, id);
    }
  }

  lemma CloseStep(s: Worker, ev: Event)
    requires Core(s) && Possible(s, ev) && (ev.Drop? || ev.Settle?)
    ensures Core(Apply(s, ev.id, Handled(s.entries[ev.id], ev, s.nextJob)))
    ensures Handled(s.entries[ev.id], ev, s.nextJob).1 != Abort
  {
    var id := ev.id;
    SingleOut(s, id);
    CloseJobsKeeps(s.entries[id], id, CurrentJob(s, id), s.nextJob,
                   Count(s.opens, id), Count(s.closes, id));
    SocketStep(s, id, CloseJobs(s.entries[id]));
  }

  /** A change of phase that opens nothing concerns no connection. */
  lemma PhaseStep(s: Worker, j: nat, phase: Phase)
    requires Core(s) && j in s.jobs && !s.jobs[j].phase.Done?
    requires phase == Done(STATUS_OK) ==> !Opens(s.jobs[j].op) || s.jobs[j].target.None?
    ensures Core(s.(jobs := s.jobs[j := s.jobs[j].(phase := phase)]))
  {
    var t := s.(jobs := s.jobs[j := s.jobs[j].(phase := phase)]);
    forall id | id in t.entries
      ensures EntryInv(t, id)
    {
      assert EntryInv(s, id);
    }
    forall k | k in t.jobs && t.jobs[k].target.Some?
      ensures OwnedBy(t, k, t.jobs[k].target.value.entry)
    {
      assert OwnedBy(s, k, s.jobs[k].target.value.entry);
    }
    forall id | id !in t.entries
      ensures Balanced(t, id)
    {
      assert Balanced(s, id);
    }
  }

  /** A chunk opened by a worker is charged to the connection that asked for it. */
  lemma OpenStep(s: Worker, j: nat)
    requires Core(s) && j in s.jobs && !s.jobs[j].phase.Done?
    requires Opens(s.jobs[j].op) && s.jobs[j].target.Some?
    ensures Core(FinishJob(s, j, STATUS_OK))
  {
    var t := FinishJob(s, j, STATUS_OK);
    var owner := s.jobs[j].target.value.entry;
    assert OwnedBy(s, j, owner);
    forall id | id in t.entries
      ensures EntryInv(t, id)
    {
      assert EntryInv(s, id);
      if id != owner && CurrentJob(s, id).Some? {
        assert RecordedJob(s.entries[id]) != j;
      }
    }
    forall k | k in t.jobs && t.jobs[k].target.Some?
      ensures OwnedBy(t, k, t.jobs[k].target.value.entry)
    {
      assert OwnedBy(s, k, s.jobs[k].target.value.entry);
    }
    forall id | id !in t.entries
      ensures Balanced(t, id)
    {
      assert Balanced(s, id);
    }
  }

  lemma FinishStep(s: Worker, j: nat, status: Status)
    requires Core(s) && Possible(s, Finish(j, status))
    ensures Core(FinishJob(s, j, status))
  {
    var job := s.jobs[j];
    if job.target.Some? && Opens(job.op) && status == STATUS_OK {
      OpenStep(s, j);
    } else {
      PhaseStep(s, j, Done(status));
    }
  }

  lemma DeliverStep(s: Worker, j: nat, env: Env)
    requires Core(s) && Possible(s, Deliver(j, env))
    ensures Core(DeliverJob(s, j, env))
  {
    var job := s.jobs[j];
    if job.target.None? {
      DeliverSilent(s, j);
    } else if !job.lost {
      CalledBack(s, j, env);
      if Clash(s, j, env) {
        LoseKeeps(Apply(s.(jobs := s.jobs - {j}), job.target.value.entry, CallbackOf(s, j, env)), s.nextJob);
      }
    }
  }

  lemma CalledBack(s: Worker, j: nat, env: Env)
    requires Core(s) && Possible(s, Deliver(j, env)) && s.jobs[j].target.Some? && !s.jobs[j].lost
    ensures HasCallback(s, j) && CallbackOf(s, j, env).1 != Abort
    ensures Core(Apply(s.(jobs := s.jobs - {j}), s.jobs[j].target.value.entry, CallbackOf(s, j, env)))
  {
    var job := s.jobs[j];
    var id := job.target.value.entry;
    assert OwnedBy(s, j, id);
    SingleOut(s, id);
    TakeOut(s, id, j);
    CallbackKeeps(s.entries[id], id, job, env, s.nextJob, Count(s.opens, id), Count(s.closes, id));
    ApplyKeepsInv(s.(jobs := s.jobs - {j}), id, CallbackOf(s, j, env), None, 0);
  }

  lemma LostEntry(s: Worker, t: Worker, j: nat, id: nat)
    requires t == Lose(s, j) && id in s.entries && EntryInv(s, id)
    ensures EntryInv(t, id)
  {
  }

  /** A job that is dropped from the table breaks nothing: its connection still has it
      recorded. */
  lemma LoseKeeps(s: Worker, j: nat)
    requires Core(s)
    ensures Core(Lose(s, j))
  {
    var t := Lose(s, j);
    forall id | id in t.entries
      ensures EntryInv(t, id)
    {
      LostEntry(s, t, j, id);
    }
    forall k | k in t.jobs && t.jobs[k].target.Some?
      ensures OwnedBy(t, k, t.jobs[k].target.value.entry)
    {
      assert OwnedBy(s, k, s.jobs[k].target.value.entry);
    }
    forall id | id !in t.entries
      ensures Balanced(t, id)
    {
      assert Balanced(s, id);
    }
  }

  lemma DeliverSilent(s: Worker, j: nat)
    requires Core(s) && j in s.jobs && s.jobs[j].target.None?
    ensures Core(s.(jobs := s.jobs - {j}))
  {
    var t := s.(jobs := s.jobs - {j});
    forall id | id in t.entries
      ensures EntryInv(t, id)
    {
      assert EntryInv(s, id);
      assert CurrentJob(t, id) == CurrentJob(s, id);
    }
    forall k | k in t.jobs && t.jobs[k].target.Some?
      ensures OwnedBy(t, k, t.jobs[k].target.value.entry)
    {
      assert OwnedBy(s, k, s.jobs[k].target.value.entry);
    }
    forall id | id !in t.entries
      ensures Balanced(t, id)
    {
      assert Balanced(s, id);
    }
  }

  /** Without its job, the connection is called back by nobody. */
  lemma TakeOut(s: Worker, id: nat, j: nat)
    requires Core(s) && id in s.entries && OwnedBy(s, j, id) && j in s.jobs
    ensures InvExcept(s.(jobs := s.jobs - {j}), id, 0)
  {
    var t := s.(jobs := s.jobs - {j});
    assert EntryInv(s, id);
    forall k | k in t.entries && k != id
      ensures EntryInv(t, k)
    {
      assert EntryInv(s, k);
      if CurrentJob(s, k).Some? {
        assert RecordedJob(s.entries[k]) != j;
      }
      assert CurrentJob(t, k) == CurrentJob(s, k);
    }
    forall i | i in t.jobs && t.jobs[i].target.Some?
      ensures OwnedBy(t, i, t.jobs[i].target.value.entry)
    {
      assert OwnedBy(s, i, s.jobs[i].target.value.entry);
    }
    forall k | k !in t.entries
      ensures Balanced(t, k)
    {
      assert Balanced(s, k);
    }
  }

  lemma AddedKeeps(t: Worker, id: nat, r: (Conn, Effect), job: Option<Job>, current: nat)
    requires InvExcept(t, id, current) && Balanced(t, id)
    requires r == (Fresh(), NoEffect) && job == None && current == 0
    ensures Core(Apply(t, id, r))
  {
    assert ApplyReady(t, id, r, job, current);
    ApplyKeepsInv(t, id, r, job, current);
  }

  lemma AcceptStep(s: Worker, t: Worker, r: (Conn, Effect), current: nat)
    requires Core(s)
    requires r == (Fresh(), NoEffect) && current == 0 && t == s.(nextEntry := s.nextEntry + 1)
    ensures Core(Apply(t, s.nextEntry, r))
  {
    Widened(s, t, current);
    AddedKeeps(t, s.nextEntry, r, None, current);
  }

  lemma Widened(s: Worker, t: Worker, current: nat)
    requires Core(s) && t == s.(nextEntry := s.nextEntry + 1) && current == 0
    ensures InvExcept(t, s.nextEntry, current)
    ensures Balanced(t, s.nextEntry)
  {
    forall k | k in t.entries
      ensures EntryInv(t, k)
    {
      assert EntryInv(s, k);
      assert CurrentJob(t, k) == CurrentJob(s, k);
    }
    forall j | j in t.jobs && t.jobs[j].target.Some?
      ensures OwnedBy(t, j, t.jobs[j].target.value.entry)
    {
      assert OwnedBy(s, j, s.jobs[j].target.value.entry);
    }
    forall k | k !in t.entries
      ensures Balanced(t, k)
    {
      assert Balanced(s, k);
    }
  }

  lemma EraseStep(s: Worker, id: nat)
    requires Core(s) && id in s.entries && s.entries[id].state == Closed
    ensures Core(s.(entries := s.entries - {id}))
  {
    var t := s.(entries := s.entries - {id});
    assert EntryInv(s, id);
    forall k | k in t.entries
      ensures EntryInv(t, k)
    {
      assert EntryInv(s, k);
      assert CurrentJob(t, k) == CurrentJob(s, k);
    }
    forall k | k in t.jobs && t.jobs[k].target.Some?
      ensures OwnedBy(t, k, t.jobs[k].target.value.entry)
    {
      assert OwnedBy(s, k, s.jobs[k].target.value.entry);
    }
    forall k | k !in t.entries
      ensures Balanced(t, k)
    {
      if k != id {
        assert Balanced(s, k);
      }
    }
  }

  // ----- every step -----------------------------------------------------------------------------

  /** The step fails an assertion: the socket to the next chunkserver has failed, and the
      end of the write has been served. */
  predicate Fails(s: Worker, ev: Event) {
    ev.ForwardFailed? && ev.id in s.entries && !s.entries[ev.id].serializer
  }

  lemma HandledKeeps(s: Worker, ev: Event)
    requires Inv(s) && Possible(s, ev) && Polite(s, ev) && OfSocket(ev)
    ensures Core(Apply(s, ev.id, Handled(s.entries[ev.id], ev, s.nextJob)))
    ensures Handled(s.entries[ev.id], ev, s.nextJob).1 == Abort <==> Fails(s, ev)
  {
    if ev.ClientPacket? || ev.ServerPacket? || ev.PacketSent? {
      PacketStep(s, ev);
    } else if ev.Drop? || ev.Settle? {
      CloseStep(s, ev);
    } else if ev.ForwardFailed? {
      ForwardErrorStep(s, ev.id);
    } else {
      ForwardStep(s, ev);
    }
  }

  lemma SocketKeeps(s: Worker, ev: Event)
    requires Inv(s) && Possible(s, ev) && Polite(s, ev) && OfSocket(ev)
    ensures Inv(Step(s, ev)) && (Step(s, ev).aborted <==> Fails(s, ev))
  {
    HandledKeeps(s, ev);
    SocketEvent(s, ev);
    var r := Handled(s.entries[ev.id], ev, s.nextJob);
    SameCore(Apply(s, ev.id, r), Step(s, ev));
    assert (r.1 == Abort <==> Apply(s, ev.id, r).aborted) && Apply(s, ev.id, r).polled == s.polled;
  }

  /** A callback leaves a connection that may forward in such a state: after a write has
      been done, its end comes too early. */
  lemma CallbackForwards(s: Worker, j: nat, env: Env)
    requires Core(s) && HasCallback(s, j) && MayForward(s.entries[s.jobs[j].target.value.entry])
    ensures MayForward(CallbackOf(s, j, env).0)
  {
    var id := s.jobs[j].target.value.entry;
    assert OwnedBy(s, j, id) && EntryInv(s, id);
    assert s.jobs[j].target.value.callback == WriteFinished;
    WrittenForwards(s.entries[id], s.jobs[j].phase.status, env, s.nextJob);
  }

  lemma WrittenForwards(e: Conn, status: Status, env: Env, next: nat)
    requires MayForward(e)
    ensures MayForward(OnWriteFinished(e, status, env, next).0)
  {
    var w := e.(writeJobId := 0);
    if w.serializer && status == STATUS_OK {
      var o := if w.writeJobWriteId == 0 then w.(isChunkOpen := true) else w;
      var c := CompleteOneSide(o, o.writeJobWriteId);
      assert c.partial != {} || c.out != [];
    }
  }

  lemma PolledAfter(s: Worker, u: Worker, id: nat, c: Conn)
    requires PolledInv(s) && u.polled == s.polled && u.entries == s.entries[id := c]
    requires id in s.polled ==> MayForward(c)
    ensures PolledInv(u)
  {
  }

  lemma ReturnShape(s: Worker, id: nat, r: (Conn, Effect), clashes: bool)
    ensures var u := Return(s, id, r, clashes);
            u.polled == s.polled && u.entries == s.entries[id := r.0] && (u.aborted <==> s.aborted || r.1 == Abort)
  {
  }

  lemma DeliverKeeps(s: Worker, j: nat, env: Env)
    requires Inv(s) && Possible(s, Deliver(j, env))
    ensures Inv(DeliverJob(s, j, env)) && !DeliverJob(s, j, env).aborted
  {
    DeliverStep(s, j, env);
    if HasCallback(s, j) {
      PolledCalledBack(s, j, env);
    }
  }

  lemma PolledCalledBack(s: Worker, j: nat, env: Env)
    requires Inv(s) && Possible(s, Deliver(j, env)) && HasCallback(s, j)
    ensures PolledInv(DeliverJob(s, j, env)) && !DeliverJob(s, j, env).aborted
  {
    var id, r := s.jobs[j].target.value.entry, CallbackOf(s, j, env);
    CalledBack(s, j, env);
    ReturnShape(s.(jobs := s.jobs - {j}), id, r, InTheWay(s, j));
    if id in s.polled {
      CallbackForwards(s, j, env);
    }
    PolledAfter(s, DeliverJob(s, j, env), id, r.0);
  }

  lemma AcceptKeeps(s: Worker, t: Worker, r: (Conn, Effect), current: nat)
    requires Inv(s)
    requires r == (Fresh(), NoEffect) && current == 0 && t == s.(nextEntry := s.nextEntry + 1)
    ensures Inv(Apply(t, s.nextEntry, r)) && Apply(t, s.nextEntry, r).aborted == s.aborted
  {
    AcceptStep(s, t, r, current);
    PolledAfter(s, Apply(t, s.nextEntry, r), s.nextEntry, r.0);
  }

  lemma WorkKeeps(s: Worker, ev: Event)
    requires Inv(s) && Possible(s, ev) && (ev.Start? || ev.Finish?)
    ensures Inv(Step(s, ev)) && !Step(s, ev).aborted
  {
    if ev.Start? {
      PhaseStep(s, ev.job, InProgress);
    } else {
      FinishStep(s, ev.job, ev.status);
    }
  }

  lemma EraseKeeps(s: Worker, id: nat)
    requires Inv(s) && id in s.entries && s.entries[id].state == Closed
    ensures Inv(s.(entries := s.entries - {id}))
  {
    EraseStep(s, id);
  }

  /** Every step of a polite run keeps the invariant, and exactly the named one fails an
      assertion. */
  lemma StepKeepsInv(s: Worker, ev: Event)
    requires Inv(s) && Possible(s, ev) && Polite(s, ev)
    ensures Inv(Step(s, ev)) && (Step(s, ev).aborted <==> Fails(s, ev))
  {
    if OfSocket(ev) {
      SocketKeeps(s, ev);
    } else if ev.Deliver? {
      DeliverKeeps(s, ev.job, ev.env);
    } else if ev.Start? || ev.Finish? {
      WorkKeeps(s, ev);
    } else if ev.Erase? {
      EraseKeeps(s, ev.id);
    } else if ev.Accept? {
      AcceptKeeps(s, s.(nextEntry := s.nextEntry + 1), (Fresh(), NoEffect), 0);
    } else {
      SameCore(s, Step(s, ev));
    }
  }

  lemma {:induction false} RunKeepsInv(s: Worker, evs: seq<Event>)
    requires Inv(s) && IsPoliteRun(s, evs)
    ensures IsRun(s, evs)
    ensures Inv(After(s, evs))
    decreases |evs|
  {
    if evs != [] {
      StepKeepsInv(s, evs[0]);
      RunKeepsInv(Step(s, evs[0]), evs[1..]);
    }
  }

  lemma {:induction false} RunGoesOn(s: Worker, evs: seq<Event>, ev: Event)
    requires IsPoliteRun(s, evs) && IsRun(s, evs)
    requires Possible(After(s, evs), ev) && Polite(After(s, evs), ev)
    ensures IsPoliteRun(s, evs + [ev]) && IsRun(s, evs + [ev])
    ensures After(s, evs + [ev]) == Step(After(s, evs), ev)
    decreases |evs|
  {
    if evs == [] {
      assert evs + [ev] == [ev] && [ev][1..] == [];
      assert IsRun(Step(s, ev), []) && IsPoliteRun(Step(s, ev), []);
    } else {
      assert (evs + [ev])[0] == evs[0] && (evs + [ev])[1..] == evs[1..] + [ev];
      RunGoesOn(Step(s, evs[0]), evs[1..], ev);
    }
  }

  /** A state after some polite run. */
  ghost predicate Reached(s: Worker) {
    exists evs :: IsPoliteRun(Initial(), evs) && IsRun(Initial(), evs) && After(Initial(), evs) == s
  }

  lemma ReachedNext(s: Worker, ev: Event)
    requires Reached(s) && Possible(s, ev) && Polite(s, ev)
    ensures Reached(Step(s, ev))
  {
    var evs :| IsPoliteRun(Initial(), evs) && IsRun(Initial(), evs) && After(Initial(), evs) == s;
    RunGoesOn(Initial(), evs, ev);
  }

  /** After every run: no callback has run, or can run, for an erased or a closed
      connection; each connection has at most one job that will call it back, and
      that is the job it has recorded. */
  lemma NoDanglingCallback(evs: seq<Event>, j: nat, k: nat)
    requires IsPoliteRun(Initial(), evs)
    ensures IsRun(Initial(), evs)
    ensures var s := After(Initial(), evs);
            && !s.dangling
            && (j in s.jobs && s.jobs[j].target.Some?
                ==> && s.jobs[j].target.value.entry in s.entries
                    && var e := s.entries[s.jobs[j].target.value.entry];
                       e.state != Closed && RecordedJob(e) == j)
            && (j in s.jobs && k in s.jobs && s.jobs[j].target.Some? && s.jobs[k].target.Some?
                && s.jobs[j].target.value.entry == s.jobs[k].target.value.entry
                ==> j == k)
  {
    RunKeepsInv(Initial(), evs);
    var s := After(Initial(), evs);
    if j in s.jobs && s.jobs[j].target.Some? {
      assert OwnedBy(s, j, s.jobs[j].target.value.entry);
    }
    if k in s.jobs && s.jobs[k].target.Some? {
      assert OwnedBy(s, k, s.jobs[k].target.value.entry);
    }
  }

  /** After every run: a connection that is idle, closed or erased has queued one
      close job for each chunk it opened; a connection that waits to be closed has a job
      recorded that has not been called back. */
  lemma OpensAreClosed(evs: seq<Event>, id: nat)
    requires IsPoliteRun(Initial(), evs)
    ensures IsRun(Initial(), evs)
    ensures var s := After(Initial(), evs);
            && (id !in s.entries || s.entries[id].state in {Idle, Closed}
                ==> Count(s.opens, id) == Count(s.closes, id))
            && (id in s.entries && s.entries[id].state == CloseWait
                ==> RecordedJob(s.entries[id]) in s.jobs)
  {
    RunKeepsInv(Initial(), evs);
    var s := After(Initial(), evs);
    if id in s.entries {
      assert EntryInv(s, id);
    } else {
      assert Balanced(s, id);
    }
  }
}
