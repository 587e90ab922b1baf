/** Repair of a whole chunk: copies of any part of any slice are made and dropped one at a
    time, and every one of them brings the chunk one step closer to its target. */
module ChunkRepair {
  import opened Labels
  import opened PartCounts
  import opened Repair
  import opened Convergence
  import opened Redundancy
  import opened Assignment
  import opened ChunkCounts

  // ----- adding a copy --------------------------------------------------------------------

  function GoalPlace(g: Goal, kind: nat): (k: nat)
    ensures k <= |g| && (k < |g| ==> kind <= g[k].kind)
    ensures forall i | 0 <= i < k :: g[i].kind < kind
  {
    if g == [] || kind <= g[0].kind then 0 else 1 + GoalPlace(g[1..], kind)
  }

  /** A slice that is not there yet is inserted with empty parts. */
  function WithSlice(g: Goal, kind: nat): (r: Goal)
    requires kind < TYPE_COUNT
  {
    if Has(g, kind) then g
    else g[..GoalPlace(g, kind)] + [Slice(kind, NoParts(kind))] + g[GoalPlace(g, kind)..]
  }

  function SetPart(g: Goal, i: nat, p: nat, q: Part): Goal
    requires i < |g| && p < |g[i].parts|
  {
    g[i := g[i].(parts := g[i].parts[p := q])]
  }

  lemma InsertedIsGoal(g: Goal, k: nat, s: Slice)
    requires IsGoal(g) && IsSlice(s) && k <= |g|
    requires forall i | 0 <= i < k :: g[i].kind < s.kind
    requires forall i | k <= i < |g| :: s.kind < g[i].kind
    ensures IsGoal(g[..k] + [s] + g[k..])
  {
    var w := g[..k] + [s] + g[k..];
    forall i, j | 0 <= i < j < |w|
      ensures w[i].kind < w[j].kind
    {
    }
  }

  lemma PlaceBefore(g: Goal, kind: nat)
    requires IsGoal(g) && !Has(g, kind)
    ensures forall i | GoalPlace(g, kind) <= i < |g| :: kind < g[i].kind
  {
    var k := GoalPlace(g, kind);
    forall i | k <= i < |g|
      ensures kind < g[i].kind
    {
      assert g[k].kind != kind;
    }
  }

  lemma WithSliceIsGoal(g: Goal, kind: nat)
    requires IsGoal(g) && kind < TYPE_COUNT
    ensures IsGoal(WithSlice(g, kind)) && Has(WithSlice(g, kind), kind)
  {
    if !Has(g, kind) {
      var k := GoalPlace(g, kind);
      PlaceBefore(g, kind);
      InsertedIsGoal(g, k, Slice(kind, NoParts(kind)));
      assert WithSlice(g, kind)[k].kind == kind;
      FindAt(WithSlice(g, kind), k);
    }
  }

  lemma WithSliceKeeps(g: Goal, kind: nat, k: nat)
    requires IsGoal(g) && kind < TYPE_COUNT && k < TYPE_COUNT
    ensures PartsOf(WithSlice(g, kind), k) == PartsOf(g, k)
    ensures k != kind ==> (Has(WithSlice(g, kind), k) <==> Has(g, k))
  {
    if !Has(g, kind) {
      WithSliceIsGoal(g, kind);
      var at, w := GoalPlace(g, kind), WithSlice(g, kind);
      assert w[at].kind == kind;
      FindAt(w, at);
      if k != kind {
        if Has(g, k) {
          var i := Find(g, k);
          var j := if i < at then i else i + 1;
          assert w[j] == g[i];
          FindAt(w, j);
        } else {
          NotLater(w, k);
        }
      }
    }
  }

  lemma SetPartIsGoal(g: Goal, i: nat, p: nat, q: Part)
    requires IsGoal(g) && i < |g| && p < |g[i].parts| && IsPart(q)
    ensures IsGoal(SetPart(g, i, p, q))
  {
  }

  lemma SetPartKeeps(g: Goal, i: nat, p: nat, q: Part, k: nat)
    requires IsGoal(g) && i < |g| && p < |g[i].parts| && IsPart(q) && k < TYPE_COUNT
    ensures Has(SetPart(g, i, p, q), k) <==> Has(g, k)
    ensures PartsOf(SetPart(g, i, p, q), k)
         == if k == g[i].kind then g[i].parts[p := q] else PartsOf(g, k)
  {
    var s := SetPart(g, i, p, q);
    SetPartIsGoal(g, i, p, q);
    FindAt(s, i);
    FindAt(g, i);
    if k != g[i].kind {
      if Has(g, k) {
        var j := Find(g, k);
        assert s[j] == g[j];
        FindAt(s, j);
      } else {
        assert forall j | 0 <= j < |s| :: s[j].kind == g[j].kind;
        NotLater(s, k);
      }
    }
  }

  /** The goal with one part replaced; its slice is inserted if it is not there. */
  function WithPart(g: Goal, kind: nat, p: nat, q: Part): (r: Goal)
    requires kind < TYPE_COUNT && Has(WithSlice(g, kind), kind)
    requires p < |WithSlice(g, kind)[Find(WithSlice(g, kind), kind)].parts|
  {
    var w := WithSlice(g, kind);
    SetPart(w, Find(w, kind), p, q)
  }

  lemma ReplacedReady(g: Goal, kind: nat, p: nat)
    requires IsGoal(g) && kind < TYPE_COUNT && p < ExpectedParts(kind)
    ensures Has(WithSlice(g, kind), kind)
    ensures p < |WithSlice(g, kind)[Find(WithSlice(g, kind), kind)].parts|
  {
    WithSliceIsGoal(g, kind);
  }

  lemma ReplacedKeeps(g: Goal, kind: nat, p: nat, q: Part, k: nat)
    requires IsGoal(g) && kind < TYPE_COUNT && p < ExpectedParts(kind) && IsPart(q) && k < TYPE_COUNT
    requires Has(WithSlice(g, kind), kind)
    requires p < |WithSlice(g, kind)[Find(WithSlice(g, kind), kind)].parts|
    requires p < |PartsOf(g, kind)|
    ensures IsGoal(WithPart(g, kind, p, q))
    ensures PartsOf(WithPart(g, kind, p, q), k)
         == if k == kind then PartsOf(g, kind)[p := q] else PartsOf(g, k)
    ensures k != kind ==> (Has(WithPart(g, kind, p, q), k) <==> Has(g, k))
  {
    var w := WithSlice(g, kind);
    var i := Find(w, kind);
    WithSliceIsGoal(g, kind);
    WithSliceKeeps(g, kind, k);
    WithSliceKeeps(g, kind, kind);
    SetPartIsGoal(w, i, p, q);
    SetPartKeeps(w, i, p, q, k);
  }

  // ----- how the totals change -----------------------------------------------------------------

  lemma {:induction false} SumsUpdate(src: seq<Part>, dst: seq<Part>, p: nat, q: Part)
    requires |src| == |dst| && p < |src|
    ensures Recovers(src[p := q], dst) + ToRecover(src[p], dst[p])
         == Recovers(src, dst) + ToRecover(q, dst[p])
    ensures Removes(src[p := q], dst) + ToRemove(src[p], dst[p])
         == Removes(src, dst) + ToRemove(q, dst[p])
    decreases p
  {
    if p > 0 {
      SumsUpdate(src[1..], dst[1..], p - 1, q);
      assert src[p := q][1..] == src[1..][p - 1 := q];
    } else {
      assert src[0 := q][1..] == src[1..];
    }
  }

  ghost predicate SameBut(av: Goal, av2: Goal, kind: nat) {
    forall k: nat | k < TYPE_COUNT && k != kind :: PartsOf(av2, k) == PartsOf(av, k)
  }

  lemma {:induction false} OtherTotals(av: Goal, av2: Goal, tg: Goal, kind: nat)
    requires IsGoal(av) && IsGoal(av2) && AllSlices(tg) && SameBut(av, av2, kind)
    requires forall i | 0 <= i < |tg| :: tg[i].kind != kind
    ensures RecoverTotal(av2, tg) == RecoverTotal(av, tg)
    ensures TargetRemoves(av2, tg) == TargetRemoves(av, tg)
    decreases |tg|
  {
    if tg != [] {
      assert PartsOf(av2, tg[0].kind) == PartsOf(av, tg[0].kind);
      OtherTotals(av, av2, tg[1..], kind);
    }
  }

  lemma {:induction false} TotalsUpdate(av: Goal, av2: Goal, tg: Goal, i: nat)
    requires IsGoal(av) && IsGoal(av2) && IsGoal(tg) && i < |tg| && SameBut(av, av2, tg[i].kind)
    ensures RecoverTotal(av2, tg) + RecoversOf(av, tg[i])
         == RecoverTotal(av, tg) + RecoversOf(av2, tg[i])
    ensures TargetRemoves(av2, tg) + RemovesOf(av, tg[i])
         == TargetRemoves(av, tg) + RemovesOf(av2, tg[i])
    decreases i
  {
    if i == 0 {
      OtherTotals(av, av2, tg[1..], tg[0].kind);
    } else {
      assert tg[0].kind != tg[i].kind;
      assert PartsOf(av2, tg[0].kind) == PartsOf(av, tg[0].kind);
      TotalsUpdate(av, av2, tg[1..], i - 1);
    }
  }

  lemma {:induction false} LeftoverInsert(g: Goal, tg: Goal, k: nat, s: Slice)
    requires k <= |g|
    ensures Leftover(g[..k] + [s] + g[k..], tg)
         == Leftover(g, tg) + (if Has(tg, s.kind) then 0 else AllCopies(s.parts))
    decreases k
  {
    var w := g[..k] + [s] + g[k..];
    if k == 0 {
      assert w[1..] == g;
    } else {
      assert w[1..] == g[1..][..k - 1] + [s] + g[1..][k - 1..];
      LeftoverInsert(g[1..], tg, k - 1, s);
    }
  }

  lemma LeftoverWithSlice(g: Goal, tg: Goal, kind: nat)
    requires kind < TYPE_COUNT
    ensures Leftover(WithSlice(g, kind), tg) == Leftover(g, tg)
  {
    if !Has(g, kind) {
      LeftoverInsert(g, tg, GoalPlace(g, kind), Slice(kind, NoParts(kind)));
      NoPartsCopies(ExpectedParts(kind));
    }
  }

  lemma {:induction false} LeftoverUpdate(g: Goal, tg: Goal, i: nat, s: Slice)
    requires i < |g| && s.kind == g[i].kind
    ensures Leftover(g[i := s], tg) + (if Has(tg, s.kind) then 0 else AllCopies(g[i].parts))
         == Leftover(g, tg) + (if Has(tg, s.kind) then 0 else AllCopies(s.parts))
    decreases i
  {
    if i == 0 {
      assert g[0 := s][1..] == g[1..];
    } else {
      assert g[i := s][1..] == g[1..][i - 1 := s];
      LeftoverUpdate(g[1..], tg, i - 1, s);
    }
  }

  lemma LeftoverReplaced(g: Goal, tg: Goal, kind: nat, p: nat, q: Part)
    requires IsGoal(g) && kind < TYPE_COUNT && p < ExpectedParts(kind)
    requires Has(WithSlice(g, kind), kind)
    requires p < |WithSlice(g, kind)[Find(WithSlice(g, kind), kind)].parts|
    requires p < |PartsOf(g, kind)|
    ensures Leftover(WithPart(g, kind, p, q), tg)
            + (if Has(tg, kind) then 0 else Total(PartsOf(g, kind)[p]))
         == Leftover(g, tg) + (if Has(tg, kind) then 0 else Total(q))
  {
    var w := WithSlice(g, kind);
    var i := Find(w, kind);
    WithSliceKeeps(g, kind, kind);
    LeftoverWithSlice(g, tg, kind);
    LeftoverUpdate(w, tg, i, w[i].(parts := w[i].parts[p := q]));
    PresentUpdate(w[i].parts, p, q);
  }

  /** Replacing one part changes the totals of the chunk by what it changes the counts of
      that part. */
  lemma ReplacedTotals(av: Goal, tg: Goal, kind: nat, p: nat, q: Part)
    requires IsGoal(av) && IsGoal(tg) && kind < TYPE_COUNT && p < ExpectedParts(kind) && IsPart(q)
    requires Has(WithSlice(av, kind), kind)
    requires p < |WithSlice(av, kind)[Find(WithSlice(av, kind), kind)].parts|
    requires p < |PartsOf(av, kind)| && p < |PartsOf(tg, kind)|
    ensures var src, dst := PartsOf(av, kind)[p], PartsOf(tg, kind)[p];
            var av2 := WithPart(av, kind, p, q);
            && IsGoal(av2)
            && RecoverTotal(av2, tg) + ToRecover(src, dst) == RecoverTotal(av, tg) + ToRecover(q, dst)
            && RemoveTotal(av2, tg) + ToRemove(src, dst) == RemoveTotal(av, tg) + ToRemove(q, dst)
  {
    var av2 := WithPart(av, kind, p, q);
    ReplacedKeeps(av, kind, p, q, kind);
    ReplacedSameBut(av, kind, p, q);
    LeftoverReplaced(av, tg, kind, p, q);
    if Has(tg, kind) {
      ReplacedMatched(av, av2, tg, kind, p, q);
    } else {
      PartsOfShape(av, kind);
      OtherTotals(av, av2, tg, kind);
      NothingWanted(PartsOf(av, kind)[p]);
      NothingWanted(q);
    }
  }

  lemma ReplacedSameBut(av: Goal, kind: nat, p: nat, q: Part)
    requires IsGoal(av) && kind < TYPE_COUNT && p < ExpectedParts(kind) && IsPart(q)
    requires Has(WithSlice(av, kind), kind)
    requires p < |WithSlice(av, kind)[Find(WithSlice(av, kind), kind)].parts|
    requires p < |PartsOf(av, kind)|
    ensures SameBut(av, WithPart(av, kind, p, q), kind)
  {
    forall k: nat | k < TYPE_COUNT && k != kind
      ensures PartsOf(WithPart(av, kind, p, q), k) == PartsOf(av, k)
    {
      ReplacedKeeps(av, kind, p, q, k);
    }
  }

  lemma ReplacedMatched(av: Goal, av2: Goal, tg: Goal, kind: nat, p: nat, q: Part)
    requires IsGoal(av) && IsGoal(av2) && IsGoal(tg) && kind < TYPE_COUNT && Has(tg, kind)
    requires SameBut(av, av2, kind) && p < |PartsOf(av, kind)| && p < |PartsOf(tg, kind)|
    requires PartsOf(av2, kind) == PartsOf(av, kind)[p := q]
    ensures var src, dst := PartsOf(av, kind)[p], PartsOf(tg, kind)[p];
            && RecoverTotal(av2, tg) + ToRecover(src, dst) == RecoverTotal(av, tg) + ToRecover(q, dst)
            && TargetRemoves(av2, tg) + ToRemove(src, dst) == TargetRemoves(av, tg) + ToRemove(q, dst)
  {
    var i := Find(tg, kind);
    PartsOfShape(av, kind);
    TotalsUpdate(av, av2, tg, i);
    SumsUpdate(PartsOf(av, kind), tg[i].parts, p, q);
  }

  // ----- runs --------------------------------------------------------------------------------------

  /** A change of one part of one slice. */
  datatype Move = Move(kind: nat, part: nat, change: Change)

  ghost predicate InRange(m: Move) {
    m.kind < TYPE_COUNT && m.part < ExpectedParts(m.kind)
  }

  /** The lists that are current for the part allow the change. */
  ghost predicate MayMove(av: Goal, tg: Goal, m: Move)
    requires IsGoal(av) && IsGoal(tg)
  {
    InRange(m)
    && (PartsOfShape(av, m.kind);
        PartsOfShape(tg, m.kind);
        Allowed(PartsOf(av, m.kind)[m.part], PartsOf(tg, m.kind)[m.part], m.change))
  }

  ghost function Moved(av: Goal, m: Move): Goal
    requires IsGoal(av) && InRange(m)
  {
    PartsOfShape(av, m.kind);
    ReplacedReady(av, m.kind, m.part);
    WithPart(av, m.kind, m.part, Changed(PartsOf(av, m.kind)[m.part], m.change))
  }

  lemma MoveHelps(av: Goal, tg: Goal, m: Move)
    requires IsGoal(av) && IsGoal(tg) && MayMove(av, tg, m)
    ensures IsGoal(Moved(av, m))
    ensures RecoverTotal(Moved(av, m), tg) == RecoverTotal(av, tg) - (if m.change.Make? then 1 else 0)
    ensures RemoveTotal(Moved(av, m), tg) == RemoveTotal(av, tg) - (if m.change.Drop? then 1 else 0)
  {
    PartsOfShape(av, m.kind);
    PartsOfShape(tg, m.kind);
    ReplacedReady(av, m.kind, m.part);
    var src, dst := PartsOf(av, m.kind)[m.part], PartsOf(tg, m.kind)[m.part];
    OneChange(src, dst, m.change);
    ReplacedTotals(av, tg, m.kind, m.part, Changed(src, m.change));
  }

  ghost predicate IsChunkRepair(av: Goal, tg: Goal, ms: seq<Move>)
    requires IsGoal(av) && IsGoal(tg)
    decreases |ms|
  {
    ms == []
    || (MayMove(av, tg, ms[0])
        && (MoveHelps(av, tg, ms[0]); IsChunkRepair(Moved(av, ms[0]), tg, ms[1..])))
  }

  ghost function RepairedChunk(av: Goal, tg: Goal, ms: seq<Move>): Goal
    requires IsGoal(av) && IsGoal(tg) && IsChunkRepair(av, tg, ms)
    decreases |ms|
  {
    if ms == [] then av
    else
      MoveHelps(av, tg, ms[0]);
      RepairedChunk(Moved(av, ms[0]), tg, ms[1..])
  }

  /** The totals count down by one with every change of every repair. */
  lemma {:induction false} ChunkRepairProgress(av: Goal, tg: Goal, ms: seq<Move>)
    requires IsGoal(av) && IsGoal(tg) && IsChunkRepair(av, tg, ms)
    ensures var end := RepairedChunk(av, tg, ms);
            && IsGoal(end)
            && RecoverTotal(end, tg) + RemoveTotal(end, tg) + |ms|
               == RecoverTotal(av, tg) + RemoveTotal(av, tg)
    decreases |ms|
  {
    if ms != [] {
      MoveHelps(av, tg, ms[0]);
      ChunkRepairProgress(Moved(av, ms[0]), tg, ms[1..]);
    }
  }

  // ----- where a repair ends -----------------------------------------------------------------------

  /** Every part of every slice is as the target has it. */
  ghost predicate ChunkMeets(av: Goal, tg: Goal)
    requires IsGoal(av) && IsGoal(tg)
  {
    forall kind: nat, p: nat | kind < TYPE_COUNT && p < ExpectedParts(kind) :: PartMeets(av, tg, kind, p)
  }

  ghost predicate PartMeets(av: Goal, tg: Goal, kind: nat, p: nat)
    requires IsGoal(av) && IsGoal(tg) && kind < TYPE_COUNT && p < ExpectedParts(kind)
  {
    PartsOfShape(av, kind);
    PartsOfShape(tg, kind);
    Meets(PartsOf(av, kind)[p], PartsOf(tg, kind)[p])
  }

  ghost predicate PartDone(src: seq<Part>, dst: seq<Part>, p: nat)
    requires p < |src| == |dst|
  {
    ToRecover(src[p], dst[p]) == 0 && ToRemove(src[p], dst[p]) == 0
  }

  lemma {:induction false} SliceDone(src: seq<Part>, dst: seq<Part>)
    requires |src| == |dst|
    ensures Recovers(src, dst) == 0 && Removes(src, dst) == 0
       <==> forall p | 0 <= p < |src| :: PartDone(src, dst, p)
    decreases |src|
  {
    if src != [] {
      SliceDone(src[1..], dst[1..]);
      if forall p | 0 <= p < |src| :: PartDone(src, dst, p) {
        assert PartDone(src, dst, 0);
        forall p | 0 <= p < |src[1..]|
          ensures PartDone(src[1..], dst[1..], p)
        {
          assert PartDone(src, dst, p + 1);
        }
      } else {
        var p :| 0 <= p < |src| && !PartDone(src, dst, p);
        if p > 0 {
          assert !PartDone(src[1..], dst[1..], p - 1);
        }
      }
    }
  }

  ghost predicate SliceIsDone(av: Goal, s: Slice)
    requires IsGoal(av) && IsSlice(s)
  {
    RecoversOf(av, s) == 0 && RemovesOf(av, s) == 0
  }

  lemma {:induction false} TargetDone(av: Goal, tg: Goal)
    requires IsGoal(av) && AllSlices(tg)
    ensures RecoverTotal(av, tg) == 0 && TargetRemoves(av, tg) == 0
       <==> forall i | 0 <= i < |tg| :: SliceIsDone(av, tg[i])
    decreases |tg|
  {
    if tg != [] {
      TargetDone(av, tg[1..]);
      if forall i | 0 <= i < |tg| :: SliceIsDone(av, tg[i]) {
        assert SliceIsDone(av, tg[0]);
        assert forall i | 0 <= i < |tg[1..]| :: SliceIsDone(av, tg[1..][i]);
      } else {
        var i :| 0 <= i < |tg| && !SliceIsDone(av, tg[i]);
        assert i > 0 ==> !SliceIsDone(av, tg[1..][i - 1]);
      }
    }
  }

  lemma {:induction false} LeftoverDone(av: Goal, tg: Goal)
    ensures Leftover(av, tg) == 0
       <==> forall i | 0 <= i < |av| :: Has(tg, av[i].kind) || AllCopies(av[i].parts) == 0
    decreases |av|
  {
    if av != [] {
      LeftoverDone(av[1..], tg);
      assert forall i | 0 < i < |av| :: av[i] == av[1..][i - 1];
    }
  }

  lemma {:induction false} CopiesZero(ps: seq<Part>)
    ensures AllCopies(ps) == 0 <==> forall p | 0 <= p < |ps| :: Total(ps[p]) == 0
    decreases |ps|
  {
    if ps != [] {
      CopiesZero(ps[1..]);
      assert forall p | 0 < p < |ps| :: ps[p] == ps[1..][p - 1];
    }
  }

  /** A part of a wanted slice meets the target exactly when its slice's sums allow. */
  lemma WantedSlice(av: Goal, tg: Goal, i: nat)
    requires IsGoal(av) && IsGoal(tg) && i < |tg|
    ensures SliceIsDone(av, tg[i])
       <==> forall p: nat | p < ExpectedParts(tg[i].kind) :: PartMeets(av, tg, tg[i].kind, p)
  {
    var kind := tg[i].kind;
    FindAt(tg, i);
    PartsOfShape(av, kind);
    var src, dst := PartsOf(av, kind), tg[i].parts;
    assert PartsOf(tg, kind) == dst;
    SliceDone(src, dst);
    forall p: nat | p < |src|
      ensures PartDone(src, dst, p) <==> PartMeets(av, tg, kind, p)
    {
      DoneMeansMet(src[p], dst[p]);
    }
  }

  lemma UnwantedPart(av: Goal, tg: Goal, kind: nat, p: nat)
    requires IsGoal(av) && IsGoal(tg) && kind < TYPE_COUNT && p < ExpectedParts(kind)
    requires !Has(tg, kind) && p < |PartsOf(av, kind)|
    ensures PartMeets(av, tg, kind, p) <==> Total(PartsOf(av, kind)[p]) == 0
  {
  }

  lemma UnwantedSlice(av: Goal, tg: Goal, j: nat)
    requires IsGoal(av) && IsGoal(tg) && j < |av| && !Has(tg, av[j].kind)
    ensures AllCopies(av[j].parts) == 0
       <==> forall p: nat | p < ExpectedParts(av[j].kind) :: PartMeets(av, tg, av[j].kind, p)
  {
    FindAt(av, j);
    CopiesZero(av[j].parts);
    forall p: nat | p < ExpectedParts(av[j].kind)
      ensures PartMeets(av, tg, av[j].kind, p) <==> Total(av[j].parts[p]) == 0
    {
      UnwantedPart(av, tg, av[j].kind, p);
    }
  }

  lemma TotalsZeroThenMet(av: Goal, tg: Goal)
    requires IsGoal(av) && IsGoal(tg) && RecoverTotal(av, tg) == 0 && RemoveTotal(av, tg) == 0
    ensures ChunkMeets(av, tg)
  {
    TargetDone(av, tg);
    LeftoverDone(av, tg);
    forall kind: nat, p: nat | kind < TYPE_COUNT && p < ExpectedParts(kind)
      ensures PartMeets(av, tg, kind, p)
    {
      if Has(tg, kind) {
        var i := Find(tg, kind);
        assert SliceIsDone(av, tg[i]);
        WantedSlice(av, tg, i);
      } else if Has(av, kind) {
        UnwantedSlice(av, tg, Find(av, kind));
      } else {
        UnwantedPart(av, tg, kind, p);
      }
    }
  }

  lemma MetThenTotalsZero(av: Goal, tg: Goal)
    requires IsGoal(av) && IsGoal(tg) && ChunkMeets(av, tg)
    ensures RecoverTotal(av, tg) == 0 && RemoveTotal(av, tg) == 0
  {
    forall i | 0 <= i < |tg|
      ensures SliceIsDone(av, tg[i])
    {
      WantedSlice(av, tg, i);
    }
    TargetDone(av, tg);
    forall j | 0 <= j < |av| && !Has(tg, av[j].kind)
      ensures AllCopies(av[j].parts) == 0
    {
      UnwantedSlice(av, tg, j);
    }
    LeftoverDone(av, tg);
  }

  /** A part that is not as it should be can be changed. */
  lemma UnmetCanMove(av: Goal, tg: Goal)
    requires IsGoal(av) && IsGoal(tg)
    ensures ChunkMeets(av, tg) <==> forall m: Move :: !MayMove(av, tg, m)
  {
    forall kind: nat, p: nat | kind < TYPE_COUNT && p < ExpectedParts(kind)
      ensures PartMeets(av, tg, kind, p) <==> forall c :: !MayMove(av, tg, Move(kind, p, c))
    {
      PartsOfShape(av, kind);
      PartsOfShape(tg, kind);
      var src, dst := PartsOf(av, kind)[p], PartsOf(tg, kind)[p];
      DoneMeansMet(src, dst);
      StuckMeansDone(src, dst);
      assert forall c :: MayMove(av, tg, Move(kind, p, c)) <==> Allowed(src, dst, c);
    }
    forall m: Move | MayMove(av, tg, m)
      ensures !PartMeets(av, tg, m.kind, m.part)
    {
      assert m == Move(m.kind, m.part, m.change);
    }
  }

  /** A repair of a chunk ends after exactly as many changes as were counted at the start;
      it ends when nothing is listed any more, and then every part of every slice is as
      the target has it. */
  lemma ChunkRepairConverges(av: Goal, tg: Goal, ms: seq<Move>)
    requires IsGoal(av) && IsGoal(tg) && IsChunkRepair(av, tg, ms)
    ensures var end := RepairedChunk(av, tg, ms);
            && IsGoal(end)
            && |ms| <= RecoverTotal(av, tg) + RemoveTotal(av, tg)
            && (|ms| == RecoverTotal(av, tg) + RemoveTotal(av, tg) <==> ChunkMeets(end, tg))
            && (ChunkMeets(end, tg) <==> forall m: Move :: !MayMove(end, tg, m))
  {
    ChunkRepairProgress(av, tg, ms);
    var end := RepairedChunk(av, tg, ms);
    UnmetCanMove(end, tg);
    if ChunkMeets(end, tg) {
      MetThenTotalsZero(end, tg);
    } else if RecoverTotal(end, tg) == 0 && RemoveTotal(end, tg) == 0 {
      TotalsZeroThenMet(end, tg);
    }
  }
}
