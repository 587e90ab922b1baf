/** One read request on a connection: read jobs and the sending of packets finish in
    any order, and the answer is nevertheless the requested range, piece by piece. */
module Reading {
  import opened Common
  import opened Entry

  /** The connection, everything that has left it since the request, the read jobs that will
      report, those that the pool has lost, the next job identifier, and whether an assertion
      has failed. */
  datatype Run = Run(e: Conn, sent: seq<OutPacket>, inFlight: nat, lost: nat, next: nat, aborted: bool)

  /** When a job reports, the pool may lose the job that its callback submits. */
  datatype Event = JobDone(loses: bool) | PacketGone

  /** An idle connection, as every earlier request leaves it. */
  predicate Resting(e: Conn) {
    e.state == Idle && RecordedJob(e) == 0 && e.held.None? && !e.isChunkOpen
  }

  /** Nothing is left over from earlier requests. */
  predicate Clean(e: Conn) {
    e.out == [] && e.readPacket.None?
  }

  function Jobs(eff: Effect): nat {
    if eff.Submit? && eff.op.OpRead? then 1 else 0
  }

  function Begin(e: Conn, offset: nat, size: nat, next: nat): Run {
    var (c, eff) := ReadInit(e, ReadReq(true, offset, size), READY, next);
    Run(c, [], Jobs(eff), 0, next + 1, eff == Abort)
  }

  predicate CanHappen(r: Run, ev: Event) {
    && !r.aborted
    && match ev
       case JobDone(_) => r.inFlight > 0
       case PacketGone => r.e.out != []
  }

  function Happen(r: Run, ev: Event): Run
    requires CanHappen(r, ev)
  {
    match ev
    case JobDone(loses) =>
      var (c, eff) := OnReadFinished(r.e, STATUS_OK, READY, r.next);
      Run(c, r.sent, r.inFlight - 1 + if loses then 0 else Jobs(eff), r.lost + if loses then Jobs(eff) else 0,
          r.next + 1, eff == Abort)
    case PacketGone =>
      var (c, eff) := OnPacketSent(r.e, READY, r.next);
      Run(c, r.sent + [r.e.out[0]], r.inFlight + Jobs(eff), r.lost, r.next + 1, eff == Abort)
  }

  ghost predicate IsHistory(r: Run, evs: seq<Event>)
    decreases |evs|
  {
    evs == [] || (CanHappen(r, evs[0]) && IsHistory(Happen(r, evs[0]), evs[1..]))
  }

  ghost function Then(r: Run, evs: seq<Event>): Run
    requires IsHistory(r, evs)
    decreases |evs|
  {
    if evs == [] then r else Then(Happen(r, evs[0]), evs[1..])
  }

  /** The pieces of a range, cut at block boundaries. */
  function Pieces(offset: nat, size: nat): seq<OutPacket>
    decreases size
  {
    if size == 0 then []
    else
      var n := PieceSize(offset, size);
      [ReadData(offset, n)] + Pieces(offset + n, size - n)
  }

  function Answer(offset: nat, size: nat): seq<OutPacket> {
    Pieces(offset, size) + [ReadStatus(STATUS_OK)]
  }

  function DataPackets(out: seq<OutPacket>): nat {
    if out == [] then 0
    else (if out[0].ReadData? then 1 else 0) + DataPackets(out[1..])
  }

  /** For a request that found the packets `pre` in the output queue: the counter
      tells how many completions are awaited, everything sent so far is the beginning
      of `pre` and the answer, and the connection rests only with the whole answer
      queued and no job in flight. No assertion fails. */
  ghost predicate Good(r: Run, pre: seq<OutPacket>, offset: nat, size: nat) {
    && !r.aborted
    && r.sent + r.e.out <= pre + Answer(offset, size)
    && (r.e.state == Read ==> r.e.todoRead == r.inFlight + r.lost + DataPackets(r.e.out))
    && (r.e.state != Read
        ==> && r.e.state == Idle && r.inFlight == 0 && r.lost == 0
            && r.sent + r.e.out == pre + Answer(offset, size))
  }

  ghost predicate AlwaysGood(e: Conn, offset: nat, size: nat, next: nat) {
    forall evs | IsHistory(Begin(e, offset, size, next), evs) ::
      Good(Then(Begin(e, offset, size, next), evs), e.out, offset, size)
  }

  // ----- the pieces partition the range ---------------------------------------------

  /** Consecutive, non-empty, none across a block boundary, together the range. */
  ghost predicate Partitions(s: seq<OutPacket>, offset: nat, size: nat)
    decreases |s|
  {
    if s == [] then size == 0
    else
      && s[0].ReadData? && s[0].offset == offset && 0 < s[0].size <= size
      && offset / BLOCK_SIZE == (offset + s[0].size - 1) / BLOCK_SIZE
      && (s[0].size < size ==> (offset + s[0].size) % BLOCK_SIZE == 0)
      && Partitions(s[1..], offset + s[0].size, size - s[0].size)
  }

  lemma {:induction false} PiecesPartition(offset: nat, size: nat)
    ensures Partitions(Pieces(offset, size), offset, size)
    decreases size
  {
    if size > 0 {
      var n := PieceSize(offset, size);
      assert Pieces(offset, size)[1..] == Pieces(offset + n, size - n);
      PiecesPartition(offset + n, size - n);
      PieceInBlock(offset, n);
    }
  }

  lemma PieceInBlock(offset: nat, n: nat)
    requires 0 < n <= BLOCK_SIZE - offset % BLOCK_SIZE
    ensures offset / BLOCK_SIZE == (offset + n - 1) / BLOCK_SIZE
    ensures n == BLOCK_SIZE - offset % BLOCK_SIZE ==> (offset + n) % BLOCK_SIZE == 0
  {
  }

  // ----- every history of a clean request is good ------------------------------------

  /** What is known of a request in progress: what has been queued, the piece being
      read and the rest make up the answer. */
  ghost predicate InProgress(r: Run, offset: nat, size: nat) {
    var e := r.e;
    && e.state == Read && r.next > 0 && !r.aborted
    && e.writeJobId == 0 && e.getBlocksJobId == 0
    && |e.out| <= 1 && (e.out != [] ==> e.out[0].ReadData?)
    && r.inFlight + r.lost == (if e.readJobId > 0 then 1 else 0)
    && e.todoRead == r.inFlight + r.lost + |e.out| && e.todoRead > 0
    && e.readPacket.Some? && e.readPacket.value.ReadData?
    && (e.readJobId == 0 ==> e.isChunkOpen)
    && r.sent + e.out + [e.readPacket.value] + Pieces(e.offset, e.size) == Pieces(offset, size)
  }

  ghost predicate Answered(r: Run, offset: nat, size: nat) {
    && r.e.state == Idle && r.inFlight == 0 && r.lost == 0 && r.next > 0 && !r.aborted
    && r.sent + r.e.out == Answer(offset, size)
  }

  /** The run after the request has gone on. */
  function GoneOn(e: Conn, sent: seq<OutPacket>, next: nat, loses: bool): Run {
    var (c, eff) := ReadContinue(e, READY, next);
    Run(c, sent, if loses then 0 else Jobs(eff), if loses then Jobs(eff) else 0, next + 1, eff == Abort)
  }

  lemma ContinueEnd(e: Conn, sent: seq<OutPacket>, next: nat, loses: bool, offset: nat, size: nat)
    requires e.state == Read && e.out == [] && next > 0 && e.size == 0 && e.isChunkOpen && e.readPacket.Some?
    requires sent + [e.readPacket.value] == Pieces(offset, size)
    ensures Answered(GoneOn(e, sent, next, loses), offset, size)
  {
    var c := GoneOn(e, sent, next, loses).e;
    assert c.out == [e.readPacket.value, ReadStatus(STATUS_OK)];
    assert sent + c.out == (sent + [e.readPacket.value]) + [ReadStatus(STATUS_OK)];
  }

  lemma ContinueMore(e: Conn, sent: seq<OutPacket>, next: nat, loses: bool, offset: nat, size: nat)
    requires e.state == Read && e.out == [] && e.todoRead == 0 && RecordedJob(e) == 0 && next > 0 && e.size > 0
    requires e.readPacket.Some? && e.readPacket.value.ReadData?
    requires sent + [e.readPacket.value] + Pieces(e.offset, e.size) == Pieces(offset, size)
    ensures InProgress(GoneOn(e, sent, next, loses), offset, size)
  {
    var c, p := GoneOn(e, sent, next, loses).e, e.readPacket.value;
    var first, rest := ReadData(e.offset, PieceSize(e.offset, e.size)), Pieces(c.offset, c.size);
    assert c.out == [p] && c.readPacket == Some(first);
    assert Pieces(e.offset, e.size) == [first] + rest;
    assert sent + c.out + [first] + rest == sent + [p] + ([first] + rest);
  }

  lemma ContinueRead(e: Conn, sent: seq<OutPacket>, next: nat, loses: bool, offset: nat, size: nat)
    requires e.state == Read && e.out == [] && e.todoRead == 0 && RecordedJob(e) == 0 && next > 0
    requires e.readPacket.Some? && e.readPacket.value.ReadData? && e.isChunkOpen
    requires sent + [e.readPacket.value] + Pieces(e.offset, e.size) == Pieces(offset, size)
    ensures var r := GoneOn(e, sent, next, loses);
            InProgress(r, offset, size) || Answered(r, offset, size)
  {
    if e.size == 0 {
      assert sent + [e.readPacket.value] + [] == sent + [e.readPacket.value];
      ContinueEnd(e, sent, next, loses, offset, size);
    } else {
      ContinueMore(e, sent, next, loses, offset, size);
    }
  }

  lemma BeginRead(e: Conn, offset: nat, size: nat, next: nat)
    requires Resting(e) && Clean(e) && ValidRequest(offset, size) && next > 0
    ensures InProgress(Begin(e, offset, size, next), offset, size)
  {
    var r := Begin(e, offset, size, next);
    var n := PieceSize(offset, size);
    assert r.e.out == [] && r.sent == [];
    assert r.sent + r.e.out + [r.e.readPacket.value] + Pieces(r.e.offset, r.e.size)
        == [ReadData(offset, n)] + Pieces(offset + n, size - n);
  }

  lemma ProgressStep(r: Run, ev: Event, offset: nat, size: nat)
    requires InProgress(r, offset, size) && CanHappen(r, ev)
    ensures InProgress(Happen(r, ev), offset, size) || Answered(Happen(r, ev), offset, size)
  {
    match ev {
      case JobDone(loses) =>
        var c := r.e.(readJobId := 0, todoRead := Pred8(r.e.todoRead), isChunkOpen := true);
        if c.todoRead == 0 {
          assert r.sent + [] + [c.readPacket.value] == r.sent + [c.readPacket.value];
          ContinueRead(c, r.sent, r.next, loses, offset, size);
        }
      case PacketGone =>
        var c := r.e.(out := r.e.out[1..], todoRead := Pred8(r.e.todoRead));
        var sent := r.sent + [r.e.out[0]];
        assert c.out == [] && r.e.out == [r.e.out[0]];
        assert sent + c.out == r.sent + r.e.out && sent + [] == sent;
        if c.todoRead == 0 {
          ContinueRead(c, sent, r.next, false, offset, size);
        }
    }
  }

  lemma AnsweredStep(r: Run, ev: Event, offset: nat, size: nat)
    requires Answered(r, offset, size) && CanHappen(r, ev)
    ensures Answered(Happen(r, ev), offset, size)
  {
    var t := Happen(r, ev);
    assert t.sent + t.e.out == r.sent + r.e.out;
  }

  lemma {:induction false} HistoryGood(r: Run, evs: seq<Event>, offset: nat, size: nat)
    requires InProgress(r, offset, size) || Answered(r, offset, size)
    requires IsHistory(r, evs)
    ensures InProgress(Then(r, evs), offset, size) || Answered(Then(r, evs), offset, size)
    decreases |evs|
  {
    if evs != [] {
      if InProgress(r, offset, size) {
        ProgressStep(r, evs[0], offset, size);
      } else {
        AnsweredStep(r, evs[0], offset, size);
      }
      HistoryGood(Happen(r, evs[0]), evs[1..], offset, size);
    }
  }

  lemma ProgressIsGood(r: Run, offset: nat, size: nat)
    requires InProgress(r, offset, size) || Answered(r, offset, size)
    ensures Good(r, [], offset, size)
  {
    assert [] + Answer(offset, size) == Answer(offset, size);
    if InProgress(r, offset, size) {
      var q := r.sent + r.e.out;
      assert q + ([r.e.readPacket.value] + Pieces(r.e.offset, r.e.size)) == Pieces(offset, size);
      assert q <= Pieces(offset, size);
      assert q <= Answer(offset, size);
      assert r.e.out != [] ==> r.e.out[1..] == [];
    }
  }

  // ----- every history of a clean request ends with the answer -------------------------

  /** The events that are still to come: each packet of the answer leaves once, and each
      piece is read once. */
  function Left(r: Run, offset: nat, size: nat): int {
    |Answer(offset, size)| - |r.sent| + r.inFlight + r.lost
    + if r.e.state == Read then |Pieces(r.e.offset, r.e.size)| else 0
  }

  lemma ContinueLeft(e: Conn, sent: seq<OutPacket>, next: nat, loses: bool, offset: nat, size: nat)
    requires e.state == Read && (e.size == 0 ==> e.isChunkOpen)
    ensures Left(GoneOn(e, sent, next, loses), offset, size)
            == |Answer(offset, size)| - |sent| + |Pieces(e.offset, e.size)|
  {
  }

  lemma LeftStep(r: Run, ev: Event, offset: nat, size: nat)
    requires (InProgress(r, offset, size) || Answered(r, offset, size)) && CanHappen(r, ev)
    ensures Left(Happen(r, ev), offset, size) == Left(r, offset, size) - 1
  {
    match ev {
      case JobDone(loses) =>
        var c := r.e.(readJobId := 0, todoRead := Pred8(r.e.todoRead), isChunkOpen := true);
        if c.todoRead == 0 {
          ContinueLeft(c, r.sent, r.next, loses, offset, size);
        }
      case PacketGone =>
        var c := r.e.(out := r.e.out[1..], todoRead := Pred8(r.e.todoRead));
        if r.e.state == Read && c.todoRead == 0 {
          ContinueLeft(c, r.sent + [r.e.out[0]], r.next, false, offset, size);
        }
    }
  }

  lemma {:induction false} HistoryLeft(r: Run, evs: seq<Event>, offset: nat, size: nat)
    requires InProgress(r, offset, size) || Answered(r, offset, size)
    requires IsHistory(r, evs)
    ensures Left(Then(r, evs), offset, size) == Left(r, offset, size) - |evs|
    decreases |evs|
  {
    if evs != [] {
      LeftStep(r, evs[0], offset, size);
      if InProgress(r, offset, size) {
        ProgressStep(r, evs[0], offset, size);
      } else {
        AnsweredStep(r, evs[0], offset, size);
      }
      HistoryLeft(Happen(r, evs[0]), evs[1..], offset, size);
    }
  }

  /** However reading and sending are interleaved, a clean request takes two events for each
      piece and one for the status: no history is longer. One stops before exactly if the
      pool has lost a job, and then the request is never answered; the others stop when
      exactly the answer has been sent. */
  lemma HistoriesEnd(e: Conn, offset: nat, size: nat, next: nat, evs: seq<Event>)
    requires Resting(e) && Clean(e) && ValidRequest(offset, size) && next > 0
    requires IsHistory(Begin(e, offset, size, next), evs)
    ensures |evs| <= 2 * |Pieces(offset, size)| + 1
    ensures var r := Then(Begin(e, offset, size, next), evs);
            && ((forall ev :: !CanHappen(r, ev)) && r.lost == 0 <==> |evs| == 2 * |Pieces(offset, size)| + 1)
            && (r.sent == Answer(offset, size) <==> |evs| == 2 * |Pieces(offset, size)| + 1)
            && (r.lost > 0 ==> forall more | IsHistory(r, more) :: Then(r, more).sent != Answer(offset, size))
  {
    var r0 := Begin(e, offset, size, next);
    BeginRead(e, offset, size, next);
    HistoryGood(r0, evs, offset, size);
    HistoryLeft(r0, evs, offset, size);
    assert Left(r0, offset, size) == 2 * |Pieces(offset, size)| + 1;
    var r := Then(r0, evs);
    EndOfHistory(r, offset, size);
    forall more | r.lost > 0 && IsHistory(r, more)
      ensures Then(r, more).sent != Answer(offset, size)
    {
      HistoryGood(r, more, offset, size);
      LostStays(r, more);
      EndOfHistory(Then(r, more), offset, size);
    }
  }

  lemma {:induction false} LostStays(r: Run, evs: seq<Event>)
    requires IsHistory(r, evs)
    ensures Then(r, evs).lost >= r.lost
    decreases |evs|
  {
    if evs != [] {
      LostStays(Happen(r, evs[0]), evs[1..]);
    }
  }

  lemma EndOfHistory(r: Run, offset: nat, size: nat)
    requires InProgress(r, offset, size) || Answered(r, offset, size)
    ensures Left(r, offset, size) >= 0
    ensures (forall ev :: !CanHappen(r, ev)) && r.lost == 0 <==> Left(r, offset, size) == 0
    ensures r.lost > 0 ==> Left(r, offset, size) > 0
    ensures r.sent == Answer(offset, size) <==> Left(r, offset, size) == 0
  {
    if InProgress(r, offset, size) {
      assert |r.sent + r.e.out| < |Answer(offset, size)|;
      assert r.lost == 0 ==> CanHappen(r, JobDone(false)) || CanHappen(r, PacketGone);
    } else {
      assert |r.sent| + |r.e.out| == |Answer(offset, size)|;
      assert r.e.out == [] ==> r.sent + r.e.out == r.sent;
      assert r.e.out != [] ==> CanHappen(r, PacketGone);
    }
  }

  // ----- requests that find something left over ---------------------------------------

  lemma {:induction false} DataPacketsAppend(s: seq<OutPacket>, p: OutPacket)
    ensures DataPackets(s + [p]) == DataPackets(s) + DataPackets([p])
  {
    if s != [] {
      assert (s + [p])[1..] == s[1..] + [p];
      DataPacketsAppend(s[1..], p);
    } else {
      assert s + [p] == [p];
    }
  }

  /** The first packet to leave is taken for one of this request, and the request
      goes on while its job is still in flight. */
  lemma LeftoverPacket(e: Conn, offset: nat, size: nat, next: nat)
    requires Resting(e) && e.out != [] && e.readPacket.None?
    requires ValidRequest(offset, size) && next > 0
    ensures !AlwaysGood(e, offset, size, next)
  {
    var r := Begin(e, offset, size, next);
    var t := Happen(r, PacketGone);
    var p := r.e.readPacket.value;
    assert t.inFlight > 0;
    if t.e.state == Read {
      assert t.e.out == e.out[1..] + [p];
      DataPacketsAppend(e.out[1..], p);
      assert DataPackets([p]) == 1;
    }
    assert !Good(t, e.out, offset, size);
    assert [PacketGone][1..] == [];
    assert IsHistory(t, []) && IsHistory(r, [PacketGone]) && Then(r, [PacketGone]) == t;
  }

  lemma SecondDiffers(offset: nat, size: nat)
    requires size > 0
    ensures |Answer(offset, size)| > 1
    ensures Answer(offset, size)[0] == ReadData(offset, PieceSize(offset, size))
    ensures Answer(offset, size)[1] != ReadData(offset, PieceSize(offset, size))
  {
    var n := PieceSize(offset, size);
    var rest := Pieces(offset + n, size - n);
    assert Pieces(offset, size) == [ReadData(offset, n)] + rest;
    if size - n > 0 {
      assert rest[0].offset == offset + n > offset;
      assert Answer(offset, size)[1] == rest[0];
    } else {
      assert rest == [];
    }
  }

  /** The packet that a failed read left behind is sent as part of the answer. */
  lemma LeftoverRead(e: Conn, offset: nat, size: nat, next: nat)
    requires Resting(e) && e.readPacket.Some?
    requires ValidRequest(offset, size) && next > 0
    ensures !AlwaysGood(e, offset, size, next)
  {
    var r := Begin(e, offset, size, next);
    var stale := e.readPacket.value;
    var first := ReadData(offset, PieceSize(offset, size));
    var n := |e.out|;
    SecondDiffers(offset, size);
    assert (r.sent + r.e.out)[n] == stale;
    assert (e.out + Answer(offset, size))[n] == first;
    if stale != first {
      assert !Good(r, e.out, offset, size);
      assert IsHistory(r, []) && Then(r, []) == r;
    } else {
      var t := Happen(r, JobDone(false));
      assert t.e.out == e.out + [stale];
      SentTwice(t, Happen(t, PacketGone), e.out, stale, offset, size);
      TwoEvents(r, JobDone(false), PacketGone);
    }
  }

  lemma TwoEvents(r: Run, a: Event, b: Event)
    requires CanHappen(r, a) && CanHappen(Happen(r, a), b)
    ensures IsHistory(r, [a, b]) && Then(r, [a, b]) == Happen(Happen(r, a), b)
  {
    var t := Happen(r, a);
    var u := Happen(t, b);
    assert [a, b][1..] == [b] && [b][1..] == [];
    assert IsHistory(u, []) && IsHistory(t, [b]) && Then(t, [b]) == u;
  }

  lemma SentTwice(t: Run, u: Run, pre: seq<OutPacket>, first: OutPacket, offset: nat, size: nat)
    requires ValidRequest(offset, size) && first == ReadData(offset, PieceSize(offset, size))
    requires t.sent == [] && t.e.out == pre + [first] && t.e.state == Read && t.e.todoRead == 1
    requires t.e.readPacket == Some(first) && !t.aborted && u == Happen(t, PacketGone)
    ensures !Good(u, pre, offset, size)
  {
    var n := |pre|;
    SecondDiffers(offset, size);
    assert pre + [first] + [first] <= u.sent + u.e.out;
    assert (pre + Answer(offset, size))[n + 1] == Answer(offset, size)[1];
  }

  /** The answer to a valid read request is right in every interleaving exactly when
      the request finds the output queue empty and no packet of a failed read. */
  lemma ReadAnswers(e: Conn, offset: nat, size: nat, next: nat)
    requires Resting(e) && ValidRequest(offset, size) && next > 0
    ensures AlwaysGood(e, offset, size, next) <==> Clean(e)
  {
    if Clean(e) {
      var r := Begin(e, offset, size, next);
      forall evs | IsHistory(r, evs)
        ensures Good(Then(r, evs), e.out, offset, size)
      {
        BeginRead(e, offset, size, next);
        HistoryGood(r, evs, offset, size);
        ProgressIsGood(Then(r, evs), offset, size);
      }
    } else if e.readPacket.Some? {
      LeftoverRead(e, offset, size, next);
    } else {
      LeftoverPacket(e, offset, size, next);
    }
  }

  /** A failed read leaves a packet behind. The next request on the same connection is
      then not answered right, even if the peer has waited for the error status. */
  lemma FailedReadSpoilsNext(e: Conn, status: Status, env: Env, next: nat,
                             offset: nat, size: nat, later: nat)
    requires e.state == Read && e.readJobId > 0 && e.readPacket.Some? && status != STATUS_OK
    requires e.writeJobId == 0 && e.getBlocksJobId == 0 && e.held.None?
    requires ValidRequest(offset, size) && later > 0
    ensures var c := OnReadFinished(e, status, env, next).0.(out := []);
            Resting(c) && !AlwaysGood(c, offset, size, later)
  {
    LeftoverRead(OnReadFinished(e, status, env, next).0.(out := []), offset, size, later);
  }
}
