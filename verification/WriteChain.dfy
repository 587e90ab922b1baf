/** A chain of chunkservers that write the same chunk. Each server runs the
    connection of module Entry; packets travel down the chain and statuses travel up,
    both in order, and every server is free to be ahead of or behind its neighbours. */
module WriteChain {
  import opened Common
  import opened Entry

  /** One server of the chain, its incoming packets, its statuses on the way to the
      server before it, and a record of what it has done so far. */
  datatype Node = Node(
    e: Conn,
    inbox: seq<Packet>,
    acks: seq<OutPacket>,
    took: seq<nat>,          // identifiers taken from the inbox
    forwarded: set<nat>,     // identifiers passed on to the next server
    started: seq<nat>,       // local jobs started
    localOk: set<nat>,       // local jobs finished well
    acked: set<nat>,         // identifiers acknowledged by the next server
    sentOk: seq<nat>,        // identifiers acknowledged to the previous server
    taken: seq<nat>)         // of these, received there

  /** The servers, and the identifiers the client has used. */
  datatype Chain = Chain(nodes: seq<Node>, script: seq<nat>, next: nat)

  datatype Event =
    | ClientSend(packet: Packet)
    | Take(k: nat, env: Env)
    | Connected(k: nat)
    | InitSent(k: nat)
    | JobDone(k: nat, status: Status, env: Env)
    | Flush(k: nat)
    | Receive(k: nat)
    | ForwardFailed(k: nat)
    | Die(k: nat)
    | Reopen(length: nat)                // a new session on the connection to the first server

  function FreshNode(): Node {
    Node(Fresh(), [], [], [], {}, [], {}, {}, [], [])
  }

  function Start(n: nat): Chain {
    Chain(seq(n, _ => FreshNode()), [], 1)
  }

  // ----- identifiers -------------------------------------------------------------

  /** The write identifier a packet carries; opening the chunk counts as write 0. */
  function PacketIds(p: Packet): seq<nat> {
    match p
    case WriteData(_, _, _, writeId) => [writeId]
    case WriteInitReq(_, _) => [0]
    case _ => []
  }

  function IdsOf(ps: seq<Packet>): seq<nat> {
    if ps == [] then [] else PacketIds(ps[0]) + IdsOf(ps[1..])
  }

  function HeldIds(e: Conn): seq<nat> {
    if e.held.Some? then PacketIds(e.held.value) else []
  }

  function OkId(p: OutPacket): seq<nat> {
    if p.WriteStatus? && p.status == STATUS_OK then [p.writeId] else []
  }

  function OkIds(out: seq<OutPacket>): seq<nat> {
    if out == [] then [] else OkId(out[0]) + OkIds(out[1..])
  }

  ghost predicate Distinct(s: seq<nat>) {
    forall i, j | 0 <= i < j < |s| :: s[i] != s[j]
  }

  function Elems(s: seq<nat>): set<nat> {
    set x | x in s
  }

  // ----- what one server does ------------------------------------------------------

  function StartedBy(eff: Effect): seq<nat> {
    if eff.Submit? && eff.op.OpOpen? then [0]
    else if eff.Submit? && eff.op.OpWrite? then [eff.op.writeId]
    else []
  }

  /** The record after a handler: jobs it started and statuses it queued. A server whose
      assertion fails is gone. */
  function Update(n: Node, r: (Conn, Effect)): Node {
    n.(e := if r.1 == Abort then r.0.(state := Close) else r.0,
       started := n.started + StartedBy(r.1),
       sentOk := n.sentOk + if |n.e.out| <= |r.0.out| then OkIds(r.0.out[|n.e.out|..]) else [])
  }

  predicate Forwards(e: Conn, p: Packet) {
    e.state == WriteForward && (p.WriteData? || p.WriteEnd?)
  }

  function TakeNode(n: Node, env: Env, next: nat): Node
    requires n.inbox != []
  {
    var p := n.inbox[0];
    Update(n, OnInput(n.e, p, env, next))
      .(inbox := n.inbox[1..],
        took := n.took + PacketIds(p),
        forwarded := if Forwards(n.e, p) then n.forwarded + Elems(PacketIds(p)) else n.forwarded)
  }

  function DoneNode(n: Node, status: Status, env: Env, next: nat): Node {
    Update(n, OnWriteFinished(n.e, status, env, next))
      .(localOk := if status == STATUS_OK then n.localOk + {n.e.writeJobWriteId} else n.localOk)
  }

  function AckNode(n: Node, p: OutPacket): Node
    requires p.WriteStatus?
  {
    var r := GotPacket(n.e, WriteAck(true, true, p.writeId, p.status), Env(Refused, false), 0);
    Update(n, r).(acked := if p.status == STATUS_OK then n.acked + {p.writeId} else n.acked)
  }

  function FlushNode(n: Node): Node
    requires n.e.out != []
  {
    n.(e := n.e.(out := n.e.out[1..]), acks := n.acks + [n.e.out[0]])
  }

  function ReceivedNode(n: Node): Node
    requires n.acks != []
  {
    n.(acks := n.acks[1..], taken := n.taken + OkId(n.acks[0]))
  }

  function Push(n: Node, p: Packet): Node {
    n.(inbox := n.inbox + [p])
  }

  // ----- the chain --------------------------------------------------------------------

  /** In a session the client opens the chain once and uses every write identifier once. */
  predicate ClientMay(c: Chain, p: Packet) {
    && (p.WriteData? ==> p.writeId > 0 && p.writeId !in c.script)
    && (p.WriteInitReq? ==> 0 !in c.script && p.wellFormed && p.chain + 1 == |c.nodes|)
    && (p.WriteData? || p.WriteInitReq? || p.WriteEnd? || p.Nop? || p.Unknown?)
  }

  predicate Running(e: Conn) {
    e.state in {WriteLast, Connecting, WriteInit, WriteForward, WriteFinish}
  }

  predicate Possible(c: Chain, ev: Event) {
    match ev
    case ClientSend(p) => c.nodes != [] && ClientMay(c, p)
    case Take(k, _) =>
      && k < |c.nodes|
      && c.nodes[k].inbox != [] && c.nodes[k].e.held.None?
      && c.nodes[k].e.state in {Idle, WriteLast, WriteForward, WriteFinish}
    case Connected(k) => k < |c.nodes| && c.nodes[k].e.state == Connecting
    case InitSent(k) => k + 1 < |c.nodes| && c.nodes[k].e.state == WriteInit
    case JobDone(k, _, _) => k < |c.nodes| && c.nodes[k].e.writeJobId > 0 && Running(c.nodes[k].e)
    case Flush(k) => k < |c.nodes| && c.nodes[k].e.out != []
    case Receive(k) =>
      k + 1 < |c.nodes| && c.nodes[k].e.state == WriteForward && c.nodes[k + 1].acks != []
      && c.nodes[k + 1].acks[0].WriteStatus?
    case ForwardFailed(k) =>
      k < |c.nodes| && c.nodes[k].e.state in {Connecting, WriteInit, WriteForward, WriteFinish, Close}
    case Die(k) => k < |c.nodes|
    case Reopen(length) =>
      0 < length && c.nodes != [] && c.nodes[0].e.state == Idle && c.nodes[0].inbox == []
  }

  /** The first server has ended its session and rests; it keeps its connection, and connects
      anew to the servers after it. The records begin again. */
  function Reopened(c: Chain, length: nat): Chain
    requires 0 < length && c.nodes != []
  {
    Chain([FreshNode().(e := c.nodes[0].e)] + seq(length - 1, _ => FreshNode()), [], c.next + 1)
  }

  function SetNode(c: Chain, k: nat, n: Node): Chain
    requires k < |c.nodes|
  {
    c.(nodes := c.nodes[k := n], next := c.next + 1)
  }

  function Step(c: Chain, ev: Event): Chain
    requires Possible(c, ev)
  {
    match ev
    case ClientSend(p) => SetNode(c, 0, Push(c.nodes[0], p)).(script := c.script + PacketIds(p))
    case Take(k, env) => TakeStep(c, k, env)
    case Connected(k) => SetNode(c, k, Update(c.nodes[k], (c.nodes[k].e.(state := WriteInit), NoEffect)))
    case InitSent(k) => InitStep(c, k)
    case JobDone(k, status, env) => SetNode(c, k, DoneNode(c.nodes[k], status, env, c.next))
    case Flush(k) => SetNode(c, k, FlushNode(c.nodes[k]))
    case Receive(k) => ReceiveStep(c, k)
    case ForwardFailed(k) => SetNode(c, k, Update(c.nodes[k], OnForwardError(c.nodes[k].e)))
    case Die(k) => SetNode(c, k, Update(c.nodes[k], (c.nodes[k].e.(state := Close), NoEffect)))
    case Reopen(length) => Reopened(c, length)
  }

  function TakeStep(c: Chain, k: nat, env: Env): Chain
    requires k < |c.nodes| && c.nodes[k].inbox != []
  {
    var n := c.nodes[k];
    var d := SetNode(c, k, TakeNode(n, env, c.next));
    if Forwards(n.e, n.inbox[0]) && k + 1 < |c.nodes|
    then SetNode(d, k + 1, Push(c.nodes[k + 1], n.inbox[0]))
    else d
  }

  function ReceiveStep(c: Chain, k: nat): Chain
    requires k + 1 < |c.nodes| && c.nodes[k + 1].acks != [] && c.nodes[k + 1].acks[0].WriteStatus?
  {
    var a, b := c.nodes[k], c.nodes[k + 1];
    SetNode(SetNode(c, k, AckNode(a, b.acks[0])), k + 1, ReceivedNode(b))
  }

  function InitStep(c: Chain, k: nat): Chain
    requires k + 1 < |c.nodes|
  {
    var n := c.nodes[k];
    var d := SetNode(c, k, Update(n, (n.e.(state := WriteForward), NoEffect)).(forwarded := {0}));
    SetNode(d, k + 1, Push(c.nodes[k + 1], WriteInitReq(true, |c.nodes| - k - 2)))
  }

  ghost predicate IsRun(c: Chain, evs: seq<Event>)
    decreases |evs|
  {
    evs == [] || (Possible(c, evs[0]) && IsRun(Step(c, evs[0]), evs[1..]))
  }

  ghost function After(c: Chain, evs: seq<Event>): Chain
    requires IsRun(c, evs)
    decreases |evs|
  {
    if evs == [] then c else After(Step(c, evs[0]), evs[1..])
  }

  // ----- what each server keeps ----------------------------------------------------------

  /** Identifiers are taken, started and forwarded at most once. */
  ghost predicate IdInv(n: Node) {
    && Distinct(n.took + IdsOf(n.inbox))
    && Distinct(n.started)
    && (forall x | x in n.started :: x in n.took)
    && (forall x | x in HeldIds(n.e) :: x in n.took && x !in n.started)
    && (forall x | x in n.forwarded :: x in n.took)
    && (n.forwarded != {} ==> 0 in n.forwarded)
    && (n.e.state in {Connecting, WriteInit} ==> n.forwarded == {} && 0 in n.took)
    && (n.e.state == WriteForward ==> 0 in n.forwarded)
  }

  /** Every job that was started is done, failed or running. */
  ghost predicate DoneInv(n: Node) {
    && (forall x | x in n.localOk :: x in n.started)
    && (n.e.writeJobId > 0 ==> n.e.writeJobWriteId in n.started && n.e.writeJobWriteId !in n.localOk)
    && (n.e.state in {Idle, WriteLast, Connecting, WriteInit, WriteForward}
        ==> forall x | x in n.started :: x in n.localOk || (n.e.writeJobId > 0 && x == n.e.writeJobWriteId))
    && (n.e.state == Idle ==> n.e.writeJobId == 0 && n.e.partial == {} && n.e.out == [] && n.e.held.None?)
    && (n.e.state !in {Read, GetBlock, CloseWait, Closed})
    && (n.e.writeJobId > 0 || n.e.state in {WriteLast, Connecting, WriteInit, WriteForward} ==> n.e.serializer)
  }

  /** The partially completed writes are those completed on exactly one side, here or
      downstream; those completed on both have been acknowledged. */
  ghost predicate SideInv(n: Node, rest: nat) {
    if rest > 0 then
      && n.e.state != WriteLast
      && n.e.partial == (n.localOk - n.acked) + (n.acked - n.localOk)
      && Elems(n.sentOk) == n.localOk * n.acked
    else
      && n.e.state !in {Connecting, WriteInit, WriteForward}
      && n.acked == {}
      && Elems(n.sentOk) <= n.localOk
      && (n.e.state in {Idle, WriteLast} ==> Elems(n.sentOk) == n.localOk)
  }

  /** Statuses leave in order and each at most once. */
  ghost predicate AckInv(n: Node) {
    && Distinct(n.sentOk)
    && n.sentOk == n.taken + OkIds(n.acks) + OkIds(n.e.out)
  }

  /** Only what the client may send is on its way down. */
  predicate Expected(p: Packet, rest: nat) {
    && !p.WriteAck? && !p.ReadReq? && !p.GetBlocksReq? && !p.PrefetchReq? && !p.Query?
    && (p.WriteInitReq? ==> p.wellFormed && p.chain == rest)
  }

  predicate InputInv(n: Node, rest: nat) {
    && (forall p | p in n.inbox :: Expected(p, rest))
    && (n.e.held.Some? ==> Expected(n.e.held.value, rest))
  }

  ghost predicate NodeInv(n: Node, rest: nat) {
    IdInv(n) && DoneInv(n) && SideInv(n, rest) && AckInv(n) && InputInv(n, rest)
  }

  /** What arrives at a server was forwarded to it; what was acknowledged to a server
      was received by it. */
  ghost predicate LinkInv(a: Node, b: Node) {
    && (forall x | x in b.took + IdsOf(b.inbox) :: x in a.forwarded)
    && a.acked == Elems(b.taken)
  }

  ghost predicate ChainInv(c: Chain) {
    && c.nodes != [] && c.next > 0
    && (forall k | 0 <= k < |c.nodes| :: NodeInv(c.nodes[k], |c.nodes| - 1 - k))
    && (forall k | 0 <= k < |c.nodes| - 1 :: LinkInv(c.nodes[k], c.nodes[k + 1]))
    && (forall x | x in c.nodes[0].took + IdsOf(c.nodes[0].inbox) :: x in c.script)
  }
}
