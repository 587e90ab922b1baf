/** What a peer causes that asks for a read before it has taken its earlier answers. */
module HastyPeer {
  import opened Common
  import opened Entry
  import opened Worker
  import opened WorkerSafety

  /** The connection after a valid request, and its job. */
  function Reading(e: Conn, offset: nat, size: nat, next: nat): (Conn, Effect) {
    ReadInit(e, ReadReq(true, offset, size), READY, next)
  }

  /** A valid read request on an idle connection leaves everything in order exactly if the
      answers to earlier requests have been taken. */
  lemma RequestKeepsIff(s: Worker, id: nat, offset: nat, size: nat)
    requires Inv(s) && !s.aborted && id in s.entries && s.entries[id].state == Idle && ValidRequest(offset, size)
    ensures Possible(s, ClientPacket(id, ReadReq(true, offset, size), READY))
    ensures Inv(Step(s, ClientPacket(id, ReadReq(true, offset, size), READY))) <==> s.entries[id].out == []
  {
    var e, ev := s.entries[id], ClientPacket(id, ReadReq(true, offset, size), READY);
    assert EntryInv(s, id);
    if e.out == [] {
      StepKeepsInv(s, ev);
    } else {
      var t := Step(s, ev);
      assert t.entries[id] == Reading(e, offset, size, s.nextJob).0;
      assert !StateInv(t.entries[id]);
      assert !EntryInv(t, id);
    }
  }

  /** How many packets have to leave until the connection takes the request for served. */
  function Sends(e: Conn): nat {
    if e.readPacket.Some? then 2 else 1
  }

  function Hasty(id: nat, e: Conn, offset: nat, size: nat): seq<Event> {
    [ClientPacket(id, ReadReq(true, offset, size), READY)]
    + seq(Sends(e), _ => PacketSent(id, READY))
  }

  /** The connection after the request and the packets. */
  lemma HastyConn(e: Conn, offset: nat, size: nat, next: nat)
    requires e.state == Idle && e.out != [] && ValidRequest(offset, size)
    ensures var r := Reading(e, offset, size, next);
            && r.1 == Submit(OpRead(offset, PieceSize(offset, size), !e.isChunkOpen), Some(ReadFinished))
            && r.0.isChunkOpen == e.isChunkOpen
            && r.0.state == Read && r.0.todoRead == Sends(e) && |r.0.out| >= Sends(e)
            && r.0.size == size - PieceSize(offset, size) && r.0.readPacket.Some?
  {
  }

  /** The first of two packets leaves and nothing else happens. */
  lemma FirstSent(e: Conn, next: nat)
    requires e.state == Read && e.todoRead == 2 && |e.out| >= 2
    ensures OnPacketSent(e, READY, next) == (e.(out := e.out[1..], todoRead := 1), NoEffect)
  {
  }

  /** The last packet leaves while the job is in flight. */
  lemma LastSent(e: Conn, next: nat)
    requires e.state == Read && e.todoRead == 1 && e.out != [] && e.readPacket.Some? && next > 0
    requires !e.isChunkOpen
    ensures var (c, eff) := OnPacketSent(e, READY, next);
            if e.size > 0
            then c.state == Read && c.readJobId == next && eff.Submit? && eff.callback == Some(ReadFinished)
            else eff == Abort
  {
  }

  /** Two jobs of the connection are outstanding, and it has recorded the second alone. */
  ghost predicate TwoJobs(t: Worker, id: nat, first: nat) {
    && id in t.entries && t.entries[id].state == Read && t.entries[id].readJobId == first + 1
    && first in t.jobs && t.jobs[first].target == Some(Target(id, ReadFinished))
    && first + 1 in t.jobs && t.jobs[first + 1].target == Some(Target(id, ReadFinished))
  }

  lemma SendLast(s: Worker, id: nat, first: nat)
    requires !s.aborted && id in s.entries && s.nextJob == first + 1
    requires first in s.jobs && s.jobs[first].target == Some(Target(id, ReadFinished))
    requires var e := s.entries[id];
             e.state == Read && e.todoRead == 1 && e.out != [] && e.readPacket.Some? && !e.isChunkOpen
    ensures Possible(s, PacketSent(id, READY))
    ensures var t := Step(s, PacketSent(id, READY));
            if s.entries[id].size > 0 then !t.aborted && TwoJobs(t, id, first) else t.aborted
  {
    LastSent(s.entries[id], s.nextJob);
  }

  lemma SendFirst(s: Worker, id: nat)
    requires !s.aborted && id in s.entries
    requires var e := s.entries[id]; e.state == Read && e.todoRead == 2 && |e.out| >= 2
    ensures Possible(s, PacketSent(id, READY))
    ensures var e := s.entries[id];
            Step(s, PacketSent(id, READY))
            == LookAt(s.(entries := s.entries[id := e.(out := e.out[1..], todoRead := 1)]), id)
  {
    FirstSent(s.entries[id], s.nextJob);
  }

  /** Every read request that finds an answer still queued, when that answer is taken before
      its own first job has reported: if it is a request of one piece, the chunk is to be
      closed that is not yet open, and the chunkserver aborts; otherwise a second job is
      submitted. */
  lemma HastyPeerBreaks(s: Worker, id: nat, offset: nat, size: nat)
    requires Inv(s) && !s.aborted && id in s.entries && s.entries[id].state == Idle && s.entries[id].out != []
    requires ValidRequest(offset, size)
    ensures IsRun(s, Hasty(id, s.entries[id], offset, size))
    ensures var t := After(s, Hasty(id, s.entries[id], offset, size));
            && (t.aborted <==> size == PieceSize(offset, size))
            && (size > PieceSize(offset, size) ==> TwoJobs(t, id, s.nextJob))
  {
    var e := s.entries[id];
    var evs, sent := Hasty(id, e, offset, size), PacketSent(id, READY);
    assert EntryInv(s, id);
    HastyConn(e, offset, size, s.nextJob);
    var t := Step(s, evs[0]);
    assert t == LookAt(Apply(s, id, Reading(e, offset, size, s.nextJob)), id);
    var rest := evs[1..];
    if e.readPacket.Some? {
      SendFirst(t, id);
      var u := Step(t, sent);
      SendLast(u, id, s.nextJob);
      OneMore(u, rest[1..], sent);
      assert rest[0] == sent;
    } else {
      SendLast(t, id, s.nextJob);
      OneMore(t, rest, sent);
    }
  }

  lemma OneMore(s: Worker, evs: seq<Event>, ev: Event)
    requires |evs| == 1 && evs[0] == ev && Possible(s, ev)
    ensures IsRun(s, evs) && After(s, evs) == Step(s, ev)
  {
    assert evs[1..] == [];
    assert IsRun(Step(s, ev), []);
  }
}
