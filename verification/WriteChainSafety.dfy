/** What every run of a write chain keeps, for chains of any length. */
module WriteChainSafety {
  import opened Common
  import opened Entry
  import opened WriteChain

  // ----- identifiers in sequences -----------------------------------------------------

  lemma {:induction false} IdsOfAppend(ps: seq<Packet>, p: Packet)
    ensures IdsOf(ps + [p]) == IdsOf(ps) + PacketIds(p)
  {
    if ps == [] {
      assert ps + [p] == [p];
    } else {
      assert (ps + [p])[1..] == ps[1..] + [p];
      IdsOfAppend(ps[1..], p);
    }
  }

  lemma {:induction false} OkIdsConcat(s: seq<OutPacket>, t: seq<OutPacket>)
    ensures OkIds(s + t) == OkIds(s) + OkIds(t)
  {
    if s == [] {
      assert s + t == t;
    } else {
      assert (s + t)[1..] == s[1..] + t;
      OkIdsConcat(s[1..], t);
    }
  }

  lemma OkIdsOne(p: OutPacket)
    ensures OkIds([p]) == OkId(p)
  {
  }

  lemma ElemsConcat(s: seq<nat>, t: seq<nat>)
    ensures Elems(s + t) == Elems(s) + Elems(t)
  {
  }

  lemma DistinctAppend(s: seq<nat>, t: seq<nat>)
    requires |t| <= 1 && Distinct(s) && (t != [] ==> t[0] !in s)
    ensures Distinct(s + t)
  {
  }

  // ----- what a packet does that is neither an acknowledgement nor a request -----------

  predicate IsError(p: OutPacket) {
    p.WriteStatus? && p.status != STATUS_OK
  }

  /** A packet is served without completing a write: it starts at most the job it asks
      for, and queues at most an error. */
  predicate Served(e: Conn, p: Packet, r: (Conn, Effect), next: nat, rest: nat) {
    && r.0.partial == e.partial && r.0.held == e.held
    && (r.0.out == e.out
        || (|r.0.out| == |e.out| + 1 && r.0.out[..|e.out|] == e.out && IsError(r.0.out[|e.out|])))
    && (StartedBy(r.1) == []
        ==> && r.0.writeJobId == e.writeJobId && r.0.writeJobWriteId == e.writeJobWriteId
            && r.0.state in {e.state, WriteFinish, Close, Idle})
    && (StartedBy(r.1) != []
        ==> && StartedBy(r.1) == PacketIds(p) && r.0.writeJobId == next
            && r.0.writeJobWriteId == PacketIds(p)[0]
            && if e.state == Idle
               then r.0.state in (if rest > 0 then {Connecting, WriteInit} else {WriteLast}) && p.WriteInitReq?
               else r.0.state == e.state && e.state in {WriteLast, WriteForward})
    && (r.0.state == Idle && e.state != Idle
        ==> e.state in {WriteLast, WriteForward} && e.partial == {} && e.out == [])
    && (r.0.state == Idle ==> r.0.out == e.out)
    && r.1 != Abort
    && (r.0.writeJobId > 0 || r.0.state in {WriteLast, Connecting, WriteInit, WriteForward} ==> r.0.serializer)
  }

  lemma PacketServed(e: Conn, p: Packet, env: Env, next: nat, rest: nat)
    requires Expected(p, rest) && e.writeJobId == 0
    requires e.state in {WriteLast, Connecting, WriteInit, WriteForward} ==> e.serializer
    requires e.state in {Idle, WriteLast, Connecting, WriteInit, WriteForward, WriteFinish}
    ensures Served(e, p, GotPacket(e, p, env, next), next, rest)
  {
  }

  lemma ServedQueuesNoOk(e: Conn, p: Packet, r: (Conn, Effect), next: nat, rest: nat)
    requires Served(e, p, r, next, rest)
    ensures |e.out| <= |r.0.out| && OkIds(r.0.out[|e.out|..]) == []
    ensures OkIds(r.0.out) == OkIds(e.out)
  {
    if r.0.out == e.out {
      assert r.0.out[|e.out|..] == [];
    } else {
      var p := r.0.out[|e.out|];
      assert r.0.out == e.out + [p] && r.0.out[|e.out|..] == [p];
      OkIdsOne(p);
      OkIdsConcat(e.out, [p]);
    }
  }

  /** A server record after a packet was served. The identifier of the packet has been
      taken, and is neither started nor waiting. */
  lemma ServeKeeps(n: Node, p: Packet, r: (Conn, Effect), next: nat, rest: nat)
    requires NodeInv(n, rest) && n.e.writeJobId == 0 && n.e.held.None? && next > 0
    requires Served(n.e, p, r, next, rest)
    requires forall x | x in PacketIds(p) :: x in n.took && x !in n.started
    requires r.0.state in {Connecting, WriteInit} && n.e.state == Idle ==> n.forwarded == {}
    ensures NodeInv(Update(n, r), rest)
  {
    ServedQueuesNoOk(n.e, p, r, next, rest);
    var m := Update(n, r);
    assert n.sentOk + [] == n.sentOk;
    assert m.sentOk == n.sentOk;
    if StartedBy(r.1) == [] {
      assert m.started == n.started;
    } else {
      assert m.started == n.started + [r.0.writeJobWriteId];
      assert r.0.writeJobWriteId in PacketIds(p);
      DistinctAppend(n.started, [r.0.writeJobWriteId]);
      assert r.0.writeJobWriteId in m.started;
    }
    ServeKeepsIds(n, p, r, next, rest);
  }

  lemma ServeKeepsIds(n: Node, p: Packet, r: (Conn, Effect), next: nat, rest: nat)
    requires IdInv(n) && n.e.held.None? && Served(n.e, p, r, next, rest)
    requires forall x | x in PacketIds(p) :: x in n.took && x !in n.started
    requires r.0.state in {Connecting, WriteInit} && n.e.state == Idle ==> n.forwarded == {}
    ensures IdInv(Update(n, r))
  {
    var m := Update(n, r);
    if StartedBy(r.1) == [] {
      assert m.started == n.started;
    } else {
      assert |PacketIds(p)| == 1;
      assert PacketIds(p)[0] in PacketIds(p);
      DistinctAppend(n.started, PacketIds(p));
    }
  }

  // ----- events of one server ---------------------------------------------------------

  /** The first packet leaves the inbox; its identifier moves to those taken. */
  lemma UnboxKeeps(n: Node, rest: nat)
    requires NodeInv(n, rest) && n.inbox != []
    ensures var p := n.inbox[0];
            var m := n.(inbox := n.inbox[1..], took := n.took + PacketIds(p));
            && NodeInv(m, rest) && Expected(p, rest)
            && (forall x | x in PacketIds(p) :: x !in n.took && x in m.took && x !in m.started)
            && m.took + IdsOf(m.inbox) == n.took + IdsOf(n.inbox)
  {
    var p := n.inbox[0];
    var ids, rest' := PacketIds(p), IdsOf(n.inbox[1..]);
    assert n.took + IdsOf(n.inbox) == (n.took + ids) + rest';
    forall x | x in ids
      ensures x !in n.took
    {
      var all := n.took + IdsOf(n.inbox);
      assert all[|n.took|] == x && all[..|n.took|] == n.took;
      LaterIsNew(all, |n.took|);
    }
  }

  lemma LaterIsNew(s: seq<nat>, i: nat)
    requires Distinct(s) && i < |s|
    ensures s[i] !in s[..i]
  {
  }

  lemma TakeKeeps(n: Node, env: Env, next: nat, rest: nat)
    requires NodeInv(n, rest) && n.inbox != [] && n.e.held.None? && next > 0
    requires n.e.state in {Idle, WriteLast, WriteForward, WriteFinish}
    ensures NodeInv(TakeNode(n, env, next), rest)
  {
    var p := n.inbox[0];
    var m := n.(inbox := n.inbox[1..], took := n.took + PacketIds(p));
    var r := OnInput(n.e, p, env, next);
    UnboxKeeps(n, rest);
    if n.e.writeJobId == 0 {
      PacketServed(n.e, p, env, next, rest);
      if r.0.state in {Connecting, WriteInit} && n.e.state == Idle {
        assert 0 in PacketIds(p);
      }
      ServeKeeps(m, p, r, next, rest);
    } else {
      HoldKeeps(m, p, rest);
      assert r.0.out[|n.e.out|..] == [];
      assert m.sentOk + [] == m.sentOk && m.started + [] == m.started;
    }
    ForwardKeeps(Update(m, r), p, rest, Forwards(n.e, p));
  }

  lemma HoldKeeps(m: Node, p: Packet, rest: nat)
    requires NodeInv(m, rest) && m.e.held.None? && m.e.writeJobId > 0 && Expected(p, rest)
    requires forall x | x in PacketIds(p) :: x in m.took && x !in m.started
    ensures NodeInv(m.(e := m.e.(held := Some(p))), rest)
  {
  }

  lemma ForwardKeeps(m: Node, p: Packet, rest: nat, forwards: bool)
    requires NodeInv(m, rest)
    requires forall x | x in PacketIds(p) :: x in m.took
    requires forwards ==> m.e.state !in {Connecting, WriteInit} && 0 in m.forwarded
    ensures NodeInv(m.(forwarded := if forwards then m.forwarded + Elems(PacketIds(p)) else m.forwarded), rest)
  {
  }

  /** A write finished on one side: the identifier joins that side. */
  ghost predicate Sides(partial: set<nat>, done: set<nat>, one: set<nat>, other: set<nat>) {
    partial == (one - other) + (other - one) && done == one * other
  }

  lemma SidesJoin(partial: set<nat>, done: set<nat>, one: set<nat>, other: set<nat>, id: nat)
    requires Sides(partial, done, one, other) && id !in one
    ensures id !in done
    ensures id in partial ==> Sides(partial - {id}, done + {id}, one + {id}, other)
    ensures id !in partial ==> Sides(partial + {id}, done, one + {id}, other)
  {
  }

  /** The status queued when the second side completes. */
  lemma StatusQueued(n: Node, id: nat)
    requires AckInv(n) && id !in n.sentOk
    ensures var c := CompleteOneSide(n.e, id);
            var m := Update(n, (c, NoEffect));
            && AckInv(m) && m.started == n.started
            && m.sentOk == (if id in n.e.partial then n.sentOk + [id] else n.sentOk)
  {
    var c := CompleteOneSide(n.e, id);
    assert n.started + [] == n.started;
    if id in n.e.partial {
      OkQueued(n, c, id);
    } else {
      assert c.out[|n.e.out|..] == [];
      assert n.sentOk + [] == n.sentOk;
    }
  }

  lemma OkQueued(n: Node, c: Conn, id: nat)
    requires AckInv(n) && id !in n.sentOk && c.out == n.e.out + [WriteStatus(id, STATUS_OK)]
    ensures var m := Update(n, (c, NoEffect));
            AckInv(m) && m.started == n.started && m.sentOk == n.sentOk + [id]
  {
    var p := WriteStatus(id, STATUS_OK);
    assert n.started + [] == n.started;
    assert c.out[|n.e.out|..] == [p];
    OkIdsOne(p);
    OkIdsConcat(n.e.out, [p]);
    DistinctAppend(n.sentOk, [id]);
    assert n.taken + OkIds(n.acks) + OkIds(c.out)
        == n.taken + OkIds(n.acks) + OkIds(n.e.out) + [id];
  }

  lemma SideCompletes(n: Node, rest: nat, id: nat, here: bool)
    requires rest > 0 && SideInv(n, rest) && AckInv(n)
    requires id !in (if here then n.localOk else n.acked)
    ensures var c := CompleteOneSide(n.e, id);
            var m := Update(n, (c, NoEffect))
                       .(localOk := if here then n.localOk + {id} else n.localOk,
                         acked := if here then n.acked else n.acked + {id});
            SideInv(m, rest) && AckInv(m) && m.started == n.started
  {
    var one := if here then n.localOk else n.acked;
    var other := if here then n.acked else n.localOk;
    assert Elems(n.sentOk) == one * other && n.e.partial == (one - other) + (other - one);
    SidesJoin(n.e.partial, Elems(n.sentOk), one, other, id);
    assert id !in Elems(n.sentOk);
    StatusQueued(n, id);
    ElemsConcat(n.sentOk, [id]);
    assert Elems([id]) == {id};
  }

  lemma AckNodeIs(n: Node, p: OutPacket)
    requires n.e.state == WriteForward && n.e.serializer && p.WriteStatus?
    ensures p.status == STATUS_OK
            ==> AckNode(n, p) == Update(n, (CompleteOneSide(n.e, p.writeId), NoEffect))
                                   .(localOk := n.localOk, acked := n.acked + {p.writeId})
    ensures p.status != STATUS_OK
            ==> AckNode(n, p) == Update(n, (Attach(n.e, p).(state := WriteFinish), NoEffect))
  {
  }

  lemma AckKeeps(n: Node, p: OutPacket, rest: nat)
    requires NodeInv(n, rest) && rest > 0 && n.e.state == WriteForward && p.WriteStatus?
    requires p.status == STATUS_OK ==> p.writeId !in n.acked
    ensures NodeInv(AckNode(n, p), rest)
  {
    AckNodeIs(n, p);
    if p.status == STATUS_OK {
      SideCompletes(n, rest, p.writeId, false);
      AckOkKeeps(n, AckNode(n, p), rest);
    } else {
      ErrorQueued(n, rest, p);
    }
  }

  /** What an acknowledgement does not touch. */
  lemma AckOkKeeps(n: Node, m: Node, rest: nat)
    requires NodeInv(n, rest) && n.e.state == WriteForward && SideInv(m, rest) && AckInv(m)
    requires m == n.(e := m.e, sentOk := m.sentOk, started := m.started, acked := m.acked) && m.started == n.started
    requires m.e == n.e.(out := m.e.out, partial := m.e.partial)
    ensures NodeInv(m, rest)
  {
  }

  /** An error status is queued and the connection winds down. */
  lemma ErrorQueued(n: Node, rest: nat, p: OutPacket)
    requires NodeInv(n, rest) && IsError(p)
    ensures NodeInv(Update(n, (Attach(n.e, p).(state := WriteFinish), NoEffect)), rest)
    ensures NodeInv(Update(n, (Attach(n.e.(writeJobId := 0), p).(state := WriteFinish), NoEffect)), rest)
  {
    var out := n.e.out + [p];
    assert out[|n.e.out|..] == [p];
    OkIdsOne(p);
    OkIdsConcat(n.e.out, [p]);
    assert n.sentOk + [] == n.sentOk && n.started + [] == n.started;
  }

  // ----- a finished write job ----------------------------------------------------------

  /** The connection after a successful job, before the next packet is served. */
  function Completed(e: Conn): Conn {
    var w := e.(writeJobId := 0);
    var o := if w.writeJobWriteId == 0 then w.(isChunkOpen := true) else w;
    if o.state == WriteLast
    then Attach(o, WriteStatus(o.writeJobWriteId, STATUS_OK))
    else CompleteOneSide(o, o.writeJobWriteId)
  }

  function CompletedNode(n: Node): Node {
    Update(n, (Completed(n.e), NoEffect)).(localOk := n.localOk + {n.e.writeJobWriteId})
  }

  lemma CompletedSides(n: Node, rest: nat)
    requires NodeInv(n, rest) && n.e.writeJobId > 0 && Running(n.e)
    ensures SideInv(CompletedNode(n), rest) && AckInv(CompletedNode(n))
    ensures CompletedNode(n).started == n.started
  {
    var id := n.e.writeJobWriteId;
    var o := n.e.(writeJobId := 0, isChunkOpen := n.e.isChunkOpen || id == 0);
    var n' := n.(e := o);
    assert id !in n.localOk && id !in Elems(n.sentOk);
    ElemsConcat(n.sentOk, [id]);
    assert Elems([id]) == {id};
    if n.e.state == WriteLast {
      OkQueued(n', Completed(n.e), id);
    } else if rest > 0 {
      SideCompletes(n', rest, id, true);
    } else {
      StatusQueued(n', id);
    }
  }

  lemma CompletedShape(e: Conn)
    ensures var c := Completed(e);
            && c.state == e.state && c.held == e.held && c.writeJobId == 0
            && c.writeJobWriteId == e.writeJobWriteId && e.out <= c.out && c.serializer == e.serializer
  {
  }

  /** The other parts of the invariant do not see the difference. */
  lemma CompletedOthers(n: Node, m: Node, rest: nat)
    requires IdInv(n) && DoneInv(n) && InputInv(n, rest) && n.e.writeJobId > 0
    requires m.inbox == n.inbox && m.took == n.took && m.forwarded == n.forwarded
    requires m.started == n.started && m.localOk == n.localOk + {n.e.writeJobWriteId}
    requires m.e.state == n.e.state && m.e.writeJobId == 0 && m.e.serializer == n.e.serializer
    requires m.e.held == n.e.held || m.e.held == None
    ensures IdInv(m) && DoneInv(m) && InputInv(m, rest)
  {
  }

  lemma CompletedKeeps(n: Node, rest: nat)
    requires NodeInv(n, rest) && n.e.writeJobId > 0 && Running(n.e)
    ensures NodeInv(CompletedNode(n), rest)
    ensures NodeInv(CompletedNode(n).(e := Completed(n.e).(held := None)), rest)
  {
    CompletedShape(n.e);
    CompletedSides(n, rest);
    var m := CompletedNode(n);
    CompletedOthers(n, m, rest);
    CompletedOthers(n, m.(e := m.e.(held := None)), rest);
  }

  /** Two handlers in a row leave the record of one. */
  lemma UpdateTwice(n: Node, c: Conn, r: (Conn, Effect))
    requires |n.e.out| <= |c.out| <= |r.0.out| && n.e.out <= c.out <= r.0.out
    ensures Update(Update(n, (c, NoEffect)), r) == Update(n, r)
  {
    var i, j := |n.e.out|, |c.out|;
    assert r.0.out[i..] == c.out[i..] + r.0.out[j..];
    OkIdsConcat(c.out[i..], r.0.out[j..]);
    assert n.sentOk + OkIds(c.out[i..]) + OkIds(r.0.out[j..])
        == n.sentOk + OkIds(r.0.out[i..]);
    assert n.started + [] + StartedBy(r.1) == n.started + StartedBy(r.1);
  }

  lemma DoneKeeps(n: Node, status: Status, env: Env, next: nat, rest: nat)
    requires NodeInv(n, rest) && n.e.writeJobId > 0 && Running(n.e) && next > 0
    ensures NodeInv(DoneNode(n, status, env, next), rest)
  {
    if status != STATUS_OK {
      ErrorQueued(n, rest, WriteStatus(n.e.writeJobWriteId, status));
    } else {
      CompletedKeeps(n, rest);
      var c := Completed(n.e);
      if c.held.Some? {
        NextServed(n, c, env, next, rest);
      }
    }
  }

  lemma NextServed(n: Node, c: Conn, env: Env, next: nat, rest: nat)
    requires NodeInv(n, rest) && n.e.writeJobId > 0 && Running(n.e) && next > 0
    requires c == Completed(n.e) && c.held.Some?
    requires NodeInv(CompletedNode(n).(e := c.(held := None)), rest)
    ensures NodeInv(Update(n, GotPacket(c.(held := None), c.held.value, env, next))
                      .(localOk := n.localOk + {n.e.writeJobWriteId}), rest)
  {
    var d, p := c.(held := None), c.held.value;
    var r := GotPacket(d, p, env, next);
    var m := CompletedNode(n).(e := d);
    CompletedShape(n.e);
    CompletedSides(n, rest);
    PacketServed(d, p, env, next, rest);
    ServeKeeps(m, p, r, next, rest);
    SameRecord(n, d, r, m, next, rest, p);
  }

  lemma SameRecord(n: Node, d: Conn, r: (Conn, Effect), m: Node, next: nat, rest: nat, p: Packet)
    requires n.e.out <= d.out && Served(d, p, r, next, rest)
    requires m == Update(n, (d, NoEffect)).(localOk := m.localOk)
    ensures Update(m, r) == Update(n, r).(localOk := m.localOk)
  {
    ServedQueuesNoOk(d, p, r, next, rest);
    assert d.out <= r.0.out;
    UpdateTwice(n, d, r);
  }

  // ----- events that only move things ---------------------------------------------------

  lemma FlushKeeps(n: Node, rest: nat)
    requires NodeInv(n, rest) && n.e.out != []
    ensures NodeInv(FlushNode(n), rest)
  {
    FlushAcks(n.taken, n.acks, n.e.out);
  }

  lemma FlushAcks(taken: seq<nat>, acks: seq<OutPacket>, out: seq<OutPacket>)
    requires out != []
    ensures taken + OkIds(acks + [out[0]]) + OkIds(out[1..]) == taken + OkIds(acks) + OkIds(out)
  {
    OkIdsConcat(acks, [out[0]]);
    OkIdsOne(out[0]);
    assert taken + (OkIds(acks) + OkId(out[0])) + OkIds(out[1..])
        == taken + OkIds(acks) + (OkId(out[0]) + OkIds(out[1..]));
  }

  lemma ReceivedKeeps(n: Node, rest: nat)
    requires NodeInv(n, rest) && n.acks != []
    ensures NodeInv(ReceivedNode(n), rest)
  {
  }

  lemma StateKeeps(n: Node, state: State, rest: nat)
    requires NodeInv(n, rest)
    requires (n.e.state == Connecting && state == WriteInit) || state == Close
    ensures NodeInv(Update(n, (n.e.(state := state), NoEffect)), rest)
  {
  }

  lemma InitSentKeeps(n: Node, rest: nat)
    requires NodeInv(n, rest) && n.e.state == WriteInit && rest > 0
    ensures NodeInv(Update(n, (n.e.(state := WriteForward), NoEffect)).(forwarded := {0}), rest)
  {
  }

  lemma PushKeeps(n: Node, p: Packet, rest: nat)
    requires NodeInv(n, rest) && Expected(p, rest)
    requires forall x | x in PacketIds(p) :: x !in n.took + IdsOf(n.inbox)
    ensures NodeInv(Push(n, p), rest)
    ensures Push(n, p).took + IdsOf(Push(n, p).inbox) == n.took + IdsOf(n.inbox) + PacketIds(p)
  {
    IdsOfAppend(n.inbox, p);
    assert n.took + (IdsOf(n.inbox) + PacketIds(p)) == n.took + IdsOf(n.inbox) + PacketIds(p);
    DistinctAppend(n.took + IdsOf(n.inbox), PacketIds(p));
  }

  // ----- the chain ------------------------------------------------------------------------

  ghost predicate Fits(c: Chain, k: nat, n: Node)
    requires k < |c.nodes|
  {
    && NodeInv(n, |c.nodes| - 1 - k)
    && (k > 0 ==> LinkInv(c.nodes[k - 1], n))
    && (k + 1 < |c.nodes| ==> LinkInv(n, c.nodes[k + 1]))
    && (k == 0 ==> forall x | x in n.took + IdsOf(n.inbox) :: x in c.script)
  }

  lemma OneNode(c: Chain, now: seq<Node>, k: nat)
    requires ChainInv(c) && k < |c.nodes| == |now| && now == c.nodes[k := now[k]]
    requires NodeInv(now[k], |c.nodes| - 1 - k)
    ensures forall i | 0 <= i < |now| :: NodeInv(now[i], |now| - 1 - i)
  {
  }

  lemma OneLink(nodes: seq<Node>, now: seq<Node>, k: nat)
    requires k < |nodes| == |now| && now == nodes[k := now[k]]
    requires forall i | 0 <= i < |nodes| - 1 :: LinkInv(nodes[i], nodes[i + 1])
    requires (k > 0 ==> LinkInv(nodes[k - 1], now[k])) && (k + 1 < |nodes| ==> LinkInv(now[k], nodes[k + 1]))
    ensures forall i | 0 <= i < |now| - 1 :: LinkInv(now[i], now[i + 1])
  {
  }

  lemma SetKeeps(c: Chain, k: nat, n: Node)
    requires ChainInv(c) && k < |c.nodes| && Fits(c, k, n)
    ensures ChainInv(SetNode(c, k, n))
  {
    OneNode(c, SetNode(c, k, n).nodes, k);
    OneLink(c.nodes, SetNode(c, k, n).nodes, k);
  }

  /** A server may change on its own if its neighbours see no difference. */
  lemma AloneFits(c: Chain, k: nat, m: Node)
    requires ChainInv(c) && k < |c.nodes| && NodeInv(m, |c.nodes| - 1 - k)
    requires var n := c.nodes[k];
             && m.took + IdsOf(m.inbox) == n.took + IdsOf(n.inbox)
             && m.taken == n.taken && m.acked == n.acked && n.forwarded <= m.forwarded
    ensures Fits(c, k, m)
  {
  }

  lemma AloneKeeps(c: Chain, k: nat, m: Node)
    requires ChainInv(c) && k < |c.nodes| && NodeInv(m, |c.nodes| - 1 - k)
    requires var n := c.nodes[k];
             && m.took + IdsOf(m.inbox) == n.took + IdsOf(n.inbox)
             && m.taken == n.taken && m.acked == n.acked && n.forwarded <= m.forwarded
    ensures ChainInv(SetNode(c, k, m))
  {
    AloneFits(c, k, m);
    SetKeeps(c, k, m);
  }

  /** A packet passed on to the next server. */
  lemma PassKeeps(c: Chain, k: nat, p: Packet)
    requires ChainInv(c) && k + 1 < |c.nodes|
    requires Expected(p, |c.nodes| - 2 - k)
    requires forall x | x in PacketIds(p) ::
               x in c.nodes[k].forwarded && x !in c.nodes[k + 1].took + IdsOf(c.nodes[k + 1].inbox)
    ensures ChainInv(SetNode(c, k + 1, Push(c.nodes[k + 1], p)))
  {
    var b := c.nodes[k + 1];
    assert NodeInv(b, |c.nodes| - 1 - (k + 1)) && LinkInv(c.nodes[k], b);
    PushKeeps(b, p, |c.nodes| - 2 - k);
    PushLink(c.nodes[k], b, p);
    if k + 2 < |c.nodes| {
      assert LinkInv(c.nodes[k + 1], c.nodes[k + 1 + 1]);
      SameSender(b, Push(b, p), c.nodes[k + 2]);
    }
    SetKeeps(c, k + 1, Push(b, p));
  }

  lemma PushLink(a: Node, b: Node, p: Packet)
    requires LinkInv(a, b) && forall x | x in PacketIds(p) :: x in a.forwarded
    ensures LinkInv(a, Push(b, p))
  {
    IdsOfAppend(b.inbox, p);
  }

  lemma TakeStepKeeps(c: Chain, k: nat, env: Env)
    requires ChainInv(c) && Possible(c, Take(k, env))
    ensures ChainInv(TakeStep(c, k, env))
  {
    var n := c.nodes[k];
    var p, m := n.inbox[0], TakeNode(n, env, c.next);
    var rest := |c.nodes| - 1 - k;
    TakeKeeps(n, env, c.next, rest);
    UnboxKeeps(n, rest);
    AloneKeeps(c, k, m);
    if Forwards(n.e, p) && k + 1 < |c.nodes| {
      var d := SetNode(c, k, m);
      assert LinkInv(c.nodes[k], c.nodes[k + 1]);
      forall x | x in PacketIds(p)
        ensures x in d.nodes[k].forwarded && x !in d.nodes[k + 1].took + IdsOf(d.nodes[k + 1].inbox)
      {
        assert x !in n.took && x !in n.forwarded;
      }
      PassKeeps(d, k, p);
    }
  }

  lemma InitStepKeeps(c: Chain, k: nat)
    requires ChainInv(c) && Possible(c, InitSent(k))
    ensures ChainInv(InitStep(c, k))
  {
    var n := c.nodes[k];
    var m := Update(n, (n.e.(state := WriteForward), NoEffect)).(forwarded := {0});
    InitSentKeeps(n, |c.nodes| - 1 - k);
    AloneKeeps(c, k, m);
    assert LinkInv(c.nodes[k], c.nodes[k + 1]);
    PassKeeps(SetNode(c, k, m), k, WriteInitReq(true, |c.nodes| - k - 2));
  }

  lemma ReceiveStepKeeps(c: Chain, k: nat)
    requires ChainInv(c) && Possible(c, Receive(k))
    ensures ChainInv(ReceiveStep(c, k))
  {
    var a, b := c.nodes[k], c.nodes[k + 1];
    assert NodeInv(a, |c.nodes| - 1 - k) && NodeInv(b, |c.nodes| - 2 - k) && LinkInv(a, b);
    var a', b' := AckNode(a, b.acks[0]), ReceivedNode(b);
    ReceivePair(a, b, a', b', |c.nodes| - 1 - k);
    ReplaceTwo(c, k, a', b');
  }

  lemma ReceivePair(a: Node, b: Node, a': Node, b': Node, rest: nat)
    requires NodeInv(a, rest) && rest > 0 && a.e.state == WriteForward && NodeInv(b, rest - 1) && LinkInv(a, b)
    requires b.acks != [] && b.acks[0].WriteStatus? && a' == AckNode(a, b.acks[0]) && b' == ReceivedNode(b)
    ensures NodeInv(a', rest) && NodeInv(b', rest - 1) && LinkInv(a', b')
    ensures a'.took == a.took && a'.inbox == a.inbox && a'.taken == a.taken
    ensures b'.forwarded == b.forwarded && b'.acked == b.acked
  {
    ReceiveLink(a, b, rest);
    ReceivedKeeps(b, rest - 1);
  }

  lemma ReceiveLink(a: Node, b: Node, rest: nat)
    requires NodeInv(a, rest) && rest > 0 && a.e.state == WriteForward && AckInv(b) && LinkInv(a, b)
    requires b.acks != [] && b.acks[0].WriteStatus?
    ensures NodeInv(AckNode(a, b.acks[0]), rest)
    ensures LinkInv(AckNode(a, b.acks[0]), ReceivedNode(b))
  {
    var p := b.acks[0];
    AckIsNew(b);
    if p.status == STATUS_OK {
      assert p.writeId in OkId(p);
    }
    AckKeeps(a, p, rest);
    ElemsConcat(b.taken, OkId(p));
  }

  lemma AckIsNew(b: Node)
    requires AckInv(b) && b.acks != []
    ensures forall x | x in OkId(b.acks[0]) :: x !in b.taken
  {
    assert OkIds(b.acks) == OkId(b.acks[0]) + OkIds(b.acks[1..]);
    if OkId(b.acks[0]) != [] {
      assert b.sentOk[|b.taken|] == OkId(b.acks[0])[0];
      assert b.sentOk[..|b.taken|] == b.taken;
      LaterIsNew(b.sentOk, |b.taken|);
    }
  }

  lemma SameSender(a: Node, now: Node, b: Node)
    requires LinkInv(a, b) && now.forwarded == a.forwarded && now.acked == a.acked
    ensures LinkInv(now, b)
  {
  }

  lemma TwoNodes(c: Chain, d: Chain, k: nat)
    requires ChainInv(c) && k + 1 < |c.nodes| == |d.nodes|
    requires d.nodes == c.nodes[k := d.nodes[k]][k + 1 := d.nodes[k + 1]]
    requires NodeInv(d.nodes[k], |c.nodes| - 1 - k) && NodeInv(d.nodes[k + 1], |c.nodes| - 2 - k)
    ensures forall i | 0 <= i < |d.nodes| :: NodeInv(d.nodes[i], |d.nodes| - 1 - i)
  {
  }

  lemma TwoLinks(nodes: seq<Node>, now: seq<Node>, k: nat)
    requires k + 1 < |nodes| == |now| && now == nodes[k := now[k]][k + 1 := now[k + 1]]
    requires forall i | 0 <= i < |nodes| - 1 :: LinkInv(nodes[i], nodes[i + 1])
    requires LinkInv(now[k], now[k + 1])
    requires now[k].took == nodes[k].took && now[k].inbox == nodes[k].inbox && now[k].taken == nodes[k].taken
    requires now[k + 1].forwarded == nodes[k + 1].forwarded && now[k + 1].acked == nodes[k + 1].acked
    ensures forall i | 0 <= i < |now| - 1 :: LinkInv(now[i], now[i + 1])
  {
  }

  lemma ReplaceTwo(c: Chain, k: nat, a: Node, b: Node)
    requires ChainInv(c) && k + 1 < |c.nodes|
    requires NodeInv(a, |c.nodes| - 1 - k) && NodeInv(b, |c.nodes| - 2 - k) && LinkInv(a, b)
    requires a.took == c.nodes[k].took && a.inbox == c.nodes[k].inbox && a.taken == c.nodes[k].taken
    requires b.forwarded == c.nodes[k + 1].forwarded && b.acked == c.nodes[k + 1].acked
    ensures ChainInv(SetNode(SetNode(c, k, a), k + 1, b))
  {
    var d := SetNode(SetNode(c, k, a), k + 1, b);
    TwoNodes(c, d, k);
    TwoLinks(c.nodes, d.nodes, k);
  }

  lemma SendStepKeeps(c: Chain, p: Packet)
    requires ChainInv(c) && ClientMay(c, p)
    ensures ChainInv(SetNode(c, 0, Push(c.nodes[0], p)).(script := c.script + PacketIds(p)))
  {
    var n := c.nodes[0];
    PushKeeps(n, p, |c.nodes| - 1);
    var c' := c.(script := c.script + PacketIds(p));
    assert ChainInv(c');
    if |c.nodes| > 1 {
      assert LinkInv(c.nodes[0], c.nodes[0 + 1]);
    }
    SetKeeps(c', 0, Push(n, p));
  }

  /** A status is queued, or the server aborts. */
  lemma FailKeeps(n: Node, rest: nat)
    requires NodeInv(n, rest) && n.e.state != Idle
    ensures NodeInv(Update(n, OnForwardError(n.e)), rest)
  {
    if n.e.serializer {
      ErrorQueued(n, rest, OnForwardError(n.e).0.out[|n.e.out|]);
    } else {
      StateKeeps(n, Close, rest);
      assert Update(n, OnForwardError(n.e)) == Update(n, (n.e.(state := Close), NoEffect));
    }
  }

  lemma StepKeeps(c: Chain, ev: Event)
    requires ChainInv(c) && Possible(c, ev)
    ensures ChainInv(Step(c, ev))
  {
    match ev {
      case ClientSend(p) => SendStepKeeps(c, p);
      case Take(k, env) => TakeStepKeeps(c, k, env);
      case InitSent(k) => InitStepKeeps(c, k);
      case Receive(k) => ReceiveStepKeeps(c, k);
      case Connected(k) =>
        StateKeeps(c.nodes[k], WriteInit, |c.nodes| - 1 - k);
        AloneKeeps(c, k, Update(c.nodes[k], (c.nodes[k].e.(state := WriteInit), NoEffect)));
      case JobDone(k, status, env) =>
        DoneKeeps(c.nodes[k], status, env, c.next, |c.nodes| - 1 - k);
        AloneKeeps(c, k, DoneNode(c.nodes[k], status, env, c.next));
      case Flush(k) =>
        FlushKeeps(c.nodes[k], |c.nodes| - 1 - k);
        AloneKeeps(c, k, FlushNode(c.nodes[k]));
      case ForwardFailed(k) =>
        FailKeeps(c.nodes[k], |c.nodes| - 1 - k);
        AloneKeeps(c, k, Update(c.nodes[k], OnForwardError(c.nodes[k].e)));
      case Die(k) =>
        StateKeeps(c.nodes[k], Close, |c.nodes| - 1 - k);
        AloneKeeps(c, k, Update(c.nodes[k], (c.nodes[k].e.(state := Close), NoEffect)));
      case Reopen(length) => ReopenKeeps(c, length);
    }
  }

  /** A server that rests has nothing left over, so a new session begins like the first. */
  lemma ReopenKeeps(c: Chain, length: nat)
    requires ChainInv(c) && Possible(c, Reopen(length))
    ensures ChainInv(Reopened(c, length))
  {
    var d := Reopened(c, length);
    assert NodeInv(c.nodes[0], |c.nodes| - 1);
    forall k | 0 <= k < |d.nodes|
      ensures NodeInv(d.nodes[k], |d.nodes| - 1 - k)
    {
      if k > 0 {
        assert d.nodes[k] == FreshNode();
      }
    }
  }

  lemma StartInv(n: nat)
    requires n > 0
    ensures ChainInv(Start(n))
  {
  }

  lemma {:induction false} RunKeeps(c: Chain, evs: seq<Event>)
    requires ChainInv(c) && IsRun(c, evs)
    ensures ChainInv(After(c, evs))
    decreases |evs|
  {
    if evs != [] {
      StepKeeps(c, evs[0]);
      RunKeeps(Step(c, evs[0]), evs[1..]);
    }
  }

  // ----- theorems ---------------------------------------------------------------------------

  lemma {:induction false} AcknowledgedEverywhere(c: Chain, k: nat, j: nat, id: nat)
    requires ChainInv(c) && k <= j < |c.nodes| && id in c.nodes[k].sentOk
    ensures id in c.nodes[j].localOk
    decreases j - k
  {
    assert NodeInv(c.nodes[k], |c.nodes| - 1 - k);
    assert id in Elems(c.nodes[k].sentOk);
    if k < j {
      assert LinkInv(c.nodes[k], c.nodes[k + 1]);
      assert NodeInv(c.nodes[k + 1], |c.nodes| - 2 - k);
      assert id in c.nodes[k].acked;
      assert id in c.nodes[k + 1].taken;
      AcknowledgedEverywhere(c, k + 1, j, id);
    }
  }

  /** In every run of any number of sessions, a success status for a write leaves a server
      only after the write has been done there and on every server after it, and leaves at
      most once. */
  lemma SuccessMeansWritten(length: nat, evs: seq<Event>, k: nat, id: nat)
    requires length > 0 && IsRun(Start(length), evs)
    ensures var c := After(Start(length), evs);
            && (k < |c.nodes| && id in c.nodes[k].sentOk
                ==> forall j | k <= j < |c.nodes| :: id in c.nodes[j].localOk)
            && (k < |c.nodes| ==> Distinct(c.nodes[k].sentOk))
            && (k + 1 < |c.nodes|
                ==> c.nodes[k].e.partial
                    == (c.nodes[k].localOk - c.nodes[k].acked) + (c.nodes[k].acked - c.nodes[k].localOk))
  {
    StartInv(length);
    RunKeeps(Start(length), evs);
    var c := After(Start(length), evs);
    if k < |c.nodes| {
      assert NodeInv(c.nodes[k], |c.nodes| - 1 - k);
      if id in c.nodes[k].sentOk {
        forall j | k <= j < |c.nodes|
          ensures id in c.nodes[j].localOk
        {
          AcknowledgedEverywhere(c, k, j, id);
        }
      }
    }
  }

  /** In every run, a server that ends a write and becomes idle again has acknowledged
      every write it started, so all of them are done there and downstream. */
  lemma EndMeansAcknowledged(length: nat, evs: seq<Event>, k: nat, env: Env, id: nat)
    requires length > 0 && IsRun(Start(length), evs)
    requires var c := After(Start(length), evs);
             && Possible(c, Take(k, env))
             && c.nodes[k].e.state in {WriteLast, WriteForward}
             && TakeNode(c.nodes[k], env, c.next).e.state == Idle
             && id in c.nodes[k].started
    ensures var c := After(Start(length), evs);
            && c.nodes[k].e.writeJobId == 0
            && id in c.nodes[k].sentOk
            && forall j | k <= j < |c.nodes| :: id in c.nodes[j].localOk
  {
    StartInv(length);
    RunKeeps(Start(length), evs);
    var c := After(Start(length), evs);
    var n := c.nodes[k];
    assert NodeInv(n, |c.nodes| - 1 - k);
    assert n.e.writeJobId == 0 && n.e.partial == {} by {
      if n.e.writeJobId == 0 {
        PacketServed(n.e, n.inbox[0], env, c.next, |c.nodes| - 1 - k);
      }
    }
    assert id in n.localOk;
    assert id in Elems(n.sentOk);
    forall j | k <= j < |c.nodes|
      ensures id in c.nodes[j].localOk
    {
      AcknowledgedEverywhere(c, k, j, id);
    }
  }
}
