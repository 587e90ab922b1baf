/** Which runs of a network worker thread fail one of its assertions. */
module WorkerAborts {
  import opened Common
  import opened Entry
  import opened Worker
  import opened WorkerSafety

  ghost predicate SomeStepFails(s: Worker, evs: seq<Event>)
    requires IsRun(s, evs)
    decreases |evs|
  {
    evs != [] && (Fails(s, evs[0]) || SomeStepFails(Step(s, evs[0]), evs[1..]))
  }

  lemma {:induction false} RunAborts(s: Worker, evs: seq<Event>)
    requires Inv(s) && !s.aborted && IsPoliteRun(s, evs)
    ensures IsRun(s, evs)
    ensures After(s, evs).aborted <==> SomeStepFails(s, evs)
    decreases |evs|
  {
    RunKeepsInv(s, evs);
    if evs != [] {
      StepKeepsInv(s, evs[0]);
      var t := Step(s, evs[0]);
      if t.aborted {
        assert evs[1..] == [];
      } else {
        RunAborts(t, evs[1..]);
      }
    }
  }

  /** A polite run ends in a failed assertion if and only if, in one of its steps, the socket to
      the next chunkserver is found broken after the end of the write has been served. */
  lemma AbortsIff(evs: seq<Event>)
    requires IsPoliteRun(Initial(), evs)
    ensures IsRun(Initial(), evs)
    ensures After(Initial(), evs).aborted <==> SomeStepFails(Initial(), evs)
  {
    RunAborts(Initial(), evs);
  }

  // ----- peers that wait before they end a write ---------------------------------------------

  /** The end of a write comes after the statuses of all its jobs. */
  predicate Patient(s: Worker, ev: Event) {
    ev.ClientPacket? && ev.packet.WriteEnd? && ev.id in s.entries ==> s.entries[ev.id].writeJobId == 0
  }

  ghost predicate IsPatientRun(s: Worker, evs: seq<Event>)
    requires IsRun(s, evs)
    decreases |evs|
  {
    evs == [] || (Patient(s, evs[0]) && IsPatientRun(Step(s, evs[0]), evs[1..]))
  }

  predicate HoldsNoEnd(e: Conn) {
    e.held.Some? ==> !e.held.value.WriteEnd?
  }

  /** No end of a write waits for a job, and what is polled can still send a status. */
  ghost predicate PatientInv(s: Worker) {
    && (forall id | id in s.entries :: HoldsNoEnd(s.entries[id]))
    && (forall id | id in s.polled && id in s.entries :: s.entries[id].serializer)
  }

  lemma PacketHoldsNoEnd(e: Conn, p: Packet, env: Env, next: nat)
    requires HoldsNoEnd(e)
    ensures HoldsNoEnd(GotPacket(e, p, env, next).0)
    ensures e.serializer && !p.WriteEnd? ==> GotPacket(e, p, env, next).0.serializer
  {
  }

  lemma SocketHoldsNoEnd(e: Conn, ev: Event, next: nat)
    requires HoldsNoEnd(e) && OfSocket(ev) && (ev.PacketSent? ==> e.out != [])
    requires ev.ClientPacket? && ev.packet.WriteEnd? ==> e.writeJobId == 0
    ensures HoldsNoEnd(Handled(e, ev, next).0)
  {
    match ev {
      case ClientPacket(_, p, env) => PacketHoldsNoEnd(e, p, env, next);
      case ServerPacket(_, p) => PacketHoldsNoEnd(e, p, Env(Refused, false), next);
      case _ =>
    }
  }

  lemma CallbackHoldsNoEnd(e: Conn, callback: Callback, status: Status, env: Env, next: nat)
    requires HoldsNoEnd(e)
    ensures HoldsNoEnd(RunCallback(e, callback, status, env, next).0)
    ensures e.serializer ==> RunCallback(e, callback, status, env, next).0.serializer
  {
    if callback == WriteFinished && status == STATUS_OK && e.serializer && e.held.Some? {
      var w := e.(writeJobId := 0);
      var o := if w.writeJobWriteId == 0 then w.(isChunkOpen := true) else w;
      var c := if o.state == WriteLast
               then Attach(o, WriteStatus(o.writeJobWriteId, STATUS_OK))
               else CompleteOneSide(o, o.writeJobWriteId);
      PacketHoldsNoEnd(c.(held := None), c.held.value, env, next);
    }
  }

  lemma PatientAfter(s: Worker, t: Worker, id: nat, c: Conn)
    requires PatientInv(s) && t.entries == s.entries[id := c] && t.polled <= s.polled && HoldsNoEnd(c)
    requires id in t.polled ==> c.serializer
    ensures PatientInv(t)
  {
  }

  lemma PatientSocket(s: Worker, ev: Event)
    requires Inv(s) && PatientInv(s) && Possible(s, ev) && Patient(s, ev) && OfSocket(ev)
    ensures PatientInv(Step(s, ev)) && !Fails(s, ev)
  {
    SocketEvent(s, ev);
    SocketHoldsNoEnd(s.entries[ev.id], ev, s.nextJob);
    PatientAfter(s, Step(s, ev), ev.id, Handled(s.entries[ev.id], ev, s.nextJob).0);
    if ev.ForwardFailed? && Forwards(s.entries[ev.id]) {
      assert EntryInv(s, ev.id);
    }
  }

  lemma PatientStep(s: Worker, ev: Event)
    requires Inv(s) && PatientInv(s) && Possible(s, ev) && Patient(s, ev)
    ensures PatientInv(Step(s, ev)) && !Fails(s, ev)
  {
    if OfSocket(ev) {
      PatientSocket(s, ev);
    } else if ev.Deliver? {
      PatientDelivery(s, ev.job, ev.env);
    } else if ev.Poll? {
      PatientPoll(s);
    } else if ev.Accept? {
      PatientAfter(s, Step(s, ev), s.nextEntry, Fresh());
    }
  }

  lemma PatientPoll(s: Worker)
    requires Inv(s) && PatientInv(s) && Possible(s, Poll)
    ensures PatientInv(Step(s, Poll))
  {
    forall id | id in s.entries && Forwards(s.entries[id])
      ensures s.entries[id].serializer
    {
      assert EntryInv(s, id);
    }
  }

  lemma PatientReturn(s: Worker, t: Worker, id: nat, r: (Conn, Effect), clashes: bool)
    requires PatientInv(s) && t.entries == s.entries && t.polled == s.polled
    requires id in s.entries && HoldsNoEnd(r.0) && (s.entries[id].serializer ==> r.0.serializer)
    ensures PatientInv(Return(t, id, r, clashes))
  {
    ReturnShape(t, id, r, clashes);
    PatientAfter(s, Return(t, id, r, clashes), id, r.0);
  }

  lemma CalledHoldsNoEnd(s: Worker, j: nat, env: Env)
    requires HasCallback(s, j) && HoldsNoEnd(s.entries[s.jobs[j].target.value.entry])
    ensures HoldsNoEnd(CallbackOf(s, j, env).0)
    ensures s.entries[s.jobs[j].target.value.entry].serializer ==> CallbackOf(s, j, env).0.serializer
  {
    var job := s.jobs[j];
    CallbackHoldsNoEnd(s.entries[job.target.value.entry], job.target.value.callback, job.phase.status, env, s.nextJob);
  }

  lemma PatientDelivery(s: Worker, j: nat, env: Env)
    requires PatientInv(s) && Possible(s, Deliver(j, env))
    ensures PatientInv(DeliverJob(s, j, env))
  {
    if HasCallback(s, j) {
      PatientCalled(s, j, env);
    } else {
      var t := DeliverJob(s, j, env);
      assert t.entries == s.entries && t.polled == s.polled;
    }
  }

  lemma PatientCalled(s: Worker, j: nat, env: Env)
    requires PatientInv(s) && HasCallback(s, j)
    ensures PatientInv(DeliverJob(s, j, env))
  {
    CalledHoldsNoEnd(s, j, env);
    PatientReturn(s, s.(jobs := s.jobs - {j}), s.jobs[j].target.value.entry, CallbackOf(s, j, env), InTheWay(s, j));
  }

  lemma {:induction false} PatientRun(s: Worker, evs: seq<Event>)
    requires Inv(s) && !s.aborted && PatientInv(s) && IsPoliteRun(s, evs) && IsRun(s, evs) && IsPatientRun(s, evs)
    ensures !After(s, evs).aborted
    decreases |evs|
  {
    if evs != [] {
      PatientStep(s, evs[0]);
      StepKeepsInv(s, evs[0]);
      PatientRun(Step(s, evs[0]), evs[1..]);
    }
  }

  /** No run fails an assertion if every peer takes its answers before it asks again and ends
      a write after its statuses. */
  lemma PatientPeersAreSafe(evs: seq<Event>)
    requires IsPoliteRun(Initial(), evs) && IsRun(Initial(), evs) && IsPatientRun(Initial(), evs)
    ensures !After(Initial(), evs).aborted
  {
    PatientRun(Initial(), evs);
  }

  // ----- peers that do not ---------------------------------------------------------------------

  /** The write ends while its job's status is on its way; in the next poll round the status is
      received and the forward socket is found broken. */
  function Impatient(id: nat, j: nat): seq<Event> {
    [ClientPacket(id, WriteEnd(true, true), READY), Poll, Deliver(j, READY), ForwardFailed(id)]
  }

  lemma EarlyEnd(e: Conn, next: nat)
    requires e.state == WriteForward && e.writeJobId > 0 && e.serializer && e.held == Some(WriteEnd(true, true))
    ensures var (c, eff) := OnWriteFinished(e, STATUS_OK, READY, next);
            c.state == WriteFinish && !c.serializer && eff == NoEffect
  {
    var w := e.(writeJobId := 0);
    var o := if w.writeJobWriteId == 0 then w.(isChunkOpen := true) else w;
    var c := CompleteOneSide(o, o.writeJobWriteId);
    assert c.partial != {} || c.out != [];
  }

  lemma ImpatientDelivery(s: Worker, id: nat, j: nat)
    requires HasCallback(s, j) && s.jobs[j].target == Some(Target(id, WriteFinished))
    requires s.jobs[j].phase == Done(STATUS_OK) && !s.aborted && id in s.polled
    requires var e := s.entries[id];
             e.state == WriteForward && e.writeJobId > 0 && e.serializer && e.held == Some(WriteEnd(true, true))
    ensures var t := DeliverJob(s, j, READY);
            !t.aborted && id in t.entries && id in t.polled && !t.entries[id].serializer
  {
    EarlyEnd(s.entries[id], s.nextJob);
    ReturnShape(s.(jobs := s.jobs - {j}), id, CallbackOf(s, j, READY), InTheWay(s, j));
  }

  lemma FourEvents(s: Worker, evs: seq<Event>, t: Worker, u: Worker, v: Worker)
    requires |evs| == 4 && Possible(s, evs[0]) && Polite(s, evs[0]) && t == Step(s, evs[0])
    requires Possible(t, evs[1]) && Polite(t, evs[1]) && u == Step(t, evs[1])
    requires Possible(u, evs[2]) && Polite(u, evs[2]) && v == Step(u, evs[2])
    requires Possible(v, evs[3]) && Polite(v, evs[3])
    ensures IsPoliteRun(s, evs) && IsRun(s, evs) && After(s, evs) == Step(v, evs[3])
  {
    var w := Step(v, evs[3]);
    assert evs[1..][1..] == evs[2..] && evs[2..][1..] == evs[3..] && evs[3..][1..] == [];
    assert IsRun(w, []) && After(w, []) == w && IsPoliteRun(w, []);
    assert IsPoliteRun(v, evs[3..]) && IsPoliteRun(u, evs[2..]) && IsPoliteRun(t, evs[1..]);
    assert IsRun(v, evs[3..]) && After(v, evs[3..]) == w;
    assert IsRun(u, evs[2..]) && After(u, evs[2..]) == w;
    assert IsRun(t, evs[1..]) && After(t, evs[1..]) == w;
  }

  lemma EndHeld(s: Worker, id: nat)
    requires !s.aborted && id in s.entries && s.entries[id].writeJobId > 0
    requires s.entries[id].state == WriteForward && s.entries[id].held.None?
    ensures var ev := ClientPacket(id, WriteEnd(true, true), READY);
            && Possible(s, ev)
            && Step(s, ev)
               == LookAt(s.(entries := s.entries[id := s.entries[id].(held := Some(WriteEnd(true, true)))]), id)
  {
  }

  /** Wherever a chunkserver forwards a write and the status of its own job waits, the end of
      the write can make it abort. */
  lemma ImpatientPeerBreaks(s: Worker, id: nat, j: nat)
    requires Inv(s) && !s.aborted && HasCallback(s, j) && s.jobs[j].target == Some(Target(id, WriteFinished))
    requires s.jobs[j].phase == Done(STATUS_OK) && s.entries[id].state == WriteForward && s.entries[id].held.None?
    ensures IsPoliteRun(s, Impatient(id, j)) && IsRun(s, Impatient(id, j)) && After(s, Impatient(id, j)).aborted
  {
    var evs := Impatient(id, j);
    assert OwnedBy(s, j, id) && EntryInv(s, id);
    EndHeld(s, id);
    var t := Step(s, evs[0]);
    var u := Step(t, Poll);
    ImpatientDelivery(u, id, j);
    FourEvents(s, evs, t, u, DeliverJob(u, j, READY));
  }

  lemma {:induction false} ReachedAfter(s: Worker, evs: seq<Event>)
    requires Reached(s) && IsPoliteRun(s, evs) && IsRun(s, evs)
    ensures Reached(After(s, evs))
    decreases |evs|
  {
    if evs != [] {
      ReachedNext(s, evs[0]);
      ReachedAfter(Step(s, evs[0]), evs[1..]);
    }
  }

  /** The connection that forwards. */
  function Writer(state: State): Conn {
    Fresh().(state := state, writeJobId := 1, serializer := true)
  }

  lemma WriterStarts() returns (s: Worker)
    ensures Reached(s) && !s.aborted && s.entries == map[0 := Writer(WriteForward)]
    ensures 1 in s.jobs && s.jobs[1] == Job(OpOpen, Some(Target(0, WriteFinished)), Enabled, false)
  {
    s := Initial();
    assert IsPoliteRun(s, []) && IsRun(s, []) && After(s, []) == s;
    ReachedNext(s, Accept);
    s := Step(s, Accept);
    assert s.entries == map[0 := Fresh()];
    var ev := ClientPacket(0, WriteInitReq(true, 1), Env(Immediate, true));
    ReachedNext(s, ev);
    assert OnInput(Fresh(), ev.packet, ev.env, 1) == (Writer(State.WriteInit), Submit(OpOpen, Some(WriteFinished)));
    s := Step(s, ev);
    assert s.entries == map[0 := Writer(State.WriteInit)];
    ReachedNext(s, InitSent(0));
    s := Step(s, InitSent(0));
  }

  /** A polite run that fails an assertion: a chunk is opened, the end of the write comes
      before the status, and the next chunkserver goes away. */
  lemma CanAbort() returns (s: Worker)
    ensures Reached(s) && s.aborted
  {
    s := WriterStarts();
    s := Opened(s);
    ReachedInv(s);
    ImpatientPeerBreaks(s, 0, 1);
    ReachedAfter(s, Impatient(0, 1));
    s := After(s, Impatient(0, 1));
  }

  lemma ReachedInv(s: Worker)
    requires Reached(s)
    ensures Inv(s)
  {
    var evs :| IsPoliteRun(Initial(), evs) && IsRun(Initial(), evs) && After(Initial(), evs) == s;
    RunKeepsInv(Initial(), evs);
  }

  lemma Opened(s: Worker) returns (t: Worker)
    requires Reached(s) && !s.aborted && s.entries == map[0 := Writer(WriteForward)]
    requires 1 in s.jobs && s.jobs[1] == Job(OpOpen, Some(Target(0, WriteFinished)), Enabled, false)
    ensures Reached(t) && !t.aborted && t.entries == s.entries
    ensures HasCallback(t, 1) && t.jobs[1] == s.jobs[1].(phase := Done(STATUS_OK))
  {
    ReachedNext(s, Start(1));
    t := Step(s, Start(1));
    ReachedNext(t, Finish(1, STATUS_OK));
    t := Step(t, Finish(1, STATUS_OK));
  }
}
