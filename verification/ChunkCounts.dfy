/** Copies to make and to remove for a whole chunk. A slice that is missing on one side
    counts as a slice of empty parts. */
module ChunkCounts {
  import opened Labels
  import opened PartCounts
  import opened Repair
  import opened Convergence
  import opened Redundancy
  import opened Assignment

  function NoParts(kind: nat): seq<Part>
    requires kind < TYPE_COUNT
  {
    seq(ExpectedParts(kind), _ => [])
  }

  function PartsOf(g: Goal, kind: nat): seq<Part>
    requires kind < TYPE_COUNT
  {
    if Has(g, kind) then g[Find(g, kind)].parts else NoParts(kind)
  }

  lemma PartsOfShape(g: Goal, kind: nat)
    requires IsGoal(g) && kind < TYPE_COUNT
    ensures |PartsOf(g, kind)| == ExpectedParts(kind) && AllParts(PartsOf(g, kind))
  {
  }

  ghost function RecoversOf(av: Goal, s: Slice): nat
    requires IsGoal(av) && IsSlice(s)
  {
    PartsOfShape(av, s.kind);
    Recovers(PartsOf(av, s.kind), s.parts)
  }

  ghost function RemovesOf(av: Goal, s: Slice): nat
    requires IsGoal(av) && IsSlice(s)
  {
    PartsOfShape(av, s.kind);
    Removes(PartsOf(av, s.kind), s.parts)
  }

  ghost predicate AllSlices(g: Goal) {
    forall i | 0 <= i < |g| :: IsSlice(g[i])
  }

  ghost function RecoverTotal(av: Goal, tg: Goal): nat
    requires IsGoal(av) && AllSlices(tg)
  {
    if tg == [] then 0 else RecoversOf(av, tg[0]) + RecoverTotal(av, tg[1..])
  }

  ghost function TargetRemoves(av: Goal, tg: Goal): nat
    requires IsGoal(av) && AllSlices(tg)
  {
    if tg == [] then 0 else RemovesOf(av, tg[0]) + TargetRemoves(av, tg[1..])
  }

  /** Copies of slices that the target does not have. */
  function Leftover(av: Goal, tg: Goal): nat {
    if av == [] then 0
    else (if Has(tg, av[0].kind) then 0 else AllCopies(av[0].parts)) + Leftover(av[1..], tg)
  }

  ghost function RemoveTotal(av: Goal, tg: Goal): nat
    requires IsGoal(av) && AllSlices(tg)
  {
    TargetRemoves(av, tg) + Leftover(av, tg)
  }

  function GoalCopies(g: Goal): nat {
    if g == [] then 0 else AllCopies(g[0].parts) + GoalCopies(g[1..])
  }

  // ----- a missing slice ----------------------------------------------------------------------

  lemma NothingThere(dst: Part)
    ensures ToRecover([], dst) == Total(dst) && ToRemove([], dst) == 0
  {
  }

  lemma {:induction false} NothingWanted(src: Part)
    requires Sorted(src)
    ensures ToRecover(src, []) == 0 && ToRemove(src, []) == Total(src)
  {
    CountsBalance(src, []);
  }

  lemma {:induction false} MissingSlice(src: seq<Part>, dst: seq<Part>)
    requires |src| == |dst| && forall i | 0 <= i < |src| :: src[i] == []
    ensures Recovers(src, dst) == AllCopies(dst) && Removes(src, dst) == 0
    decreases |src|
  {
    if src != [] {
      NothingThere(dst[0]);
      MissingSlice(src[1..], dst[1..]);
    }
  }

  // ----- sums along a loop ---------------------------------------------------------------------

  lemma {:induction false} SumsNext(src: seq<Part>, dst: seq<Part>, i: nat)
    requires |src| == |dst| && i < |src|
    ensures Recovers(src[..i + 1], dst[..i + 1])
         == Recovers(src[..i], dst[..i]) + ToRecover(src[i], dst[i])
    ensures Removes(src[..i + 1], dst[..i + 1])
         == Removes(src[..i], dst[..i]) + ToRemove(src[i], dst[i])
    decreases i
  {
    if i > 0 {
      SumsNext(src[1..], dst[1..], i - 1);
      assert src[..i + 1][1..] == src[1..][..i] && src[..i][1..] == src[1..][..i - 1];
      assert dst[..i + 1][1..] == dst[1..][..i] && dst[..i][1..] == dst[1..][..i - 1];
    } else {
      assert src[..1][1..] == [] && dst[..1][1..] == [];
    }
  }

  lemma {:induction false} TotalsNext(av: Goal, tg: Goal, i: nat)
    requires IsGoal(av) && AllSlices(tg) && i < |tg|
    ensures RecoverTotal(av, tg[..i + 1]) == RecoverTotal(av, tg[..i]) + RecoversOf(av, tg[i])
    ensures TargetRemoves(av, tg[..i + 1]) == TargetRemoves(av, tg[..i]) + RemovesOf(av, tg[i])
    decreases i
  {
    if i > 0 {
      TotalsNext(av, tg[1..], i - 1);
      assert tg[..i + 1][1..] == tg[1..][..i] && tg[..i][1..] == tg[1..][..i - 1];
    } else {
      assert tg[..1][1..] == [];
    }
  }

  lemma {:induction false} LeftoverNext(av: Goal, tg: Goal, i: nat)
    requires i < |av|
    ensures Leftover(av[..i + 1], tg)
         == Leftover(av[..i], tg) + (if Has(tg, av[i].kind) then 0 else AllCopies(av[i].parts))
    decreases i
  {
    if i > 0 {
      LeftoverNext(av[1..], tg, i - 1);
      assert av[..i + 1][1..] == av[1..][..i] && av[..i][1..] == av[1..][..i - 1];
    } else {
      assert av[..1][1..] == [];
    }
  }

  // ----- balance ---------------------------------------------------------------------------------

  ghost function MatchedCopies(av: Goal, tg: Goal): nat
    requires AllSlices(tg)
  {
    if tg == [] then 0 else AllCopies(PartsOf(av, tg[0].kind)) + MatchedCopies(av, tg[1..])
  }

  lemma {:induction false} TargetBalance(av: Goal, tg: Goal)
    requires IsGoal(av) && AllSlices(tg)
    ensures RecoverTotal(av, tg) + MatchedCopies(av, tg) == TargetRemoves(av, tg) + GoalCopies(tg)
    decreases |tg|
  {
    if tg != [] {
      PartsOfShape(av, tg[0].kind);
      SliceBalance(PartsOf(av, tg[0].kind), tg[0].parts);
      TargetBalance(av, tg[1..]);
    }
  }

  lemma {:induction false} NoPartsCopies(n: nat)
    ensures AllCopies(seq(n, _ => [])) == 0
  {
    if n > 0 {
      assert seq<Part>(n, _ => [])[1..] == seq<Part>(n - 1, _ => []);
      NoPartsCopies(n - 1);
    }
  }

  lemma {:induction false} MatchedNothing(av: Goal, tg: Goal)
    requires AllSlices(tg) && forall i | 0 <= i < |tg| :: !Has(av, tg[i].kind)
    ensures MatchedCopies(av, tg) == 0
    decreases |tg|
  {
    if tg != [] {
      NoPartsCopies(ExpectedParts(tg[0].kind));
      MatchedNothing(av, tg[1..]);
    }
  }

  lemma {:induction false} NotLater(g: Goal, kind: nat)
    requires forall i | 0 <= i < |g| :: g[i].kind != kind
    ensures !Has(g, kind)
  {
  }

  /** What the first slice adds to the copies that match the target. */
  lemma {:induction false} MatchedFirst(av: Goal, tg: Goal)
    requires IsGoal(av) && IsGoal(tg) && av != []
    ensures MatchedCopies(av, tg)
         == MatchedCopies(av[1..], tg) + (if Has(tg, av[0].kind) then AllCopies(av[0].parts) else 0)
    decreases |tg|
  {
    if tg != [] {
      MatchedFirst(av, tg[1..]);
      NotLater(av[1..], av[0].kind);
      if tg[0].kind == av[0].kind {
        NotLater(tg[1..], tg[0].kind);
        NoPartsCopies(ExpectedParts(tg[0].kind));
      } else {
        assert PartsOf(av, tg[0].kind) == PartsOf(av[1..], tg[0].kind);
      }
    }
  }

  lemma {:induction false} MatchedAndLeft(av: Goal, tg: Goal)
    requires IsGoal(av) && IsGoal(tg)
    ensures MatchedCopies(av, tg) + Leftover(av, tg) == GoalCopies(av)
    decreases |av|
  {
    if av == [] {
      MatchedNothing(av, tg);
    } else {
      MatchedFirst(av, tg);
      MatchedAndLeft(av[1..], tg);
    }
  }

  /** For the whole chunk, copies to make and copies to remove differ by the copies that
      are missing. */
  lemma ChunkBalance(av: Goal, tg: Goal)
    requires IsGoal(av) && IsGoal(tg)
    ensures RecoverTotal(av, tg) + GoalCopies(av) == RemoveTotal(av, tg) + GoalCopies(tg)
  {
    TargetBalance(av, tg);
    MatchedAndLeft(av, tg);
  }
}
