/** The order of the parts of a target: what stays the same when it changes, and which order
    needs the fewest copies made and removed. */
module Rearrangement {
  import opened Labels
  import opened PartCounts
  import opened Convergence
  import opened Redundancy
  import opened Assignment
  import opened ChunkCounts

  /** There is a permutation for every slice. */
  ghost predicate AreAssignments(a: map<nat, seq<nat>>, g: Goal) {
    forall i | 0 <= i < |g| :: g[i].kind in a && IsPermutation(a[g[i].kind], |g[i].parts|)
  }

  /** The same slices with the same parts, in some order. */
  ghost predicate SameSlices(a: Goal, b: Goal) {
    |a| == |b| && forall k | 0 <= k < |a| :: SameSlice(a[k], b[k])
  }

  lemma SameSlicesUpdate(g: Goal, h: Goal, i: nat, s: Slice)
    requires IsGoal(g) && SameSlices(g, h) && i < |g| && IsSlice(s) && SameSlice(s, g[i])
    ensures IsGoal(g[i := s]) && SameSlices(g[i := s], h)
  {
  }

  ghost predicate SameSlice(a: Slice, b: Slice) {
    a.kind == b.kind && multiset(a.parts) == multiset(b.parts)
  }

  lemma RearrangedSlice(s: Slice, a: seq<nat>)
    requires IsSlice(s) && IsPermutation(a, |s.parts|)
    ensures IsSlice(s.(parts := Permuted(s.parts, a)))
    ensures SameSlice(s.(parts := Permuted(s.parts, a)), s)
  {
    SamePartsPermuted(s.parts, a);
  }

  lemma {:induction false} SameCopies(a: Goal, b: Goal)
    requires SameSlices(a, b)
    ensures GoalCopies(a) == GoalCopies(b)
    decreases |a|
  {
    if a != [] {
      assert SameSlice(a[0], b[0]);
      CopiesOfMultiset(a[0].parts, b[0].parts);
      SameCopies(a[1..], b[1..]);
    }
  }

  // ----- the best order of the parts ----------------------------------------------------------

  ghost predicate Alike(parts: seq<Part>) {
    forall i | 0 < i < |parts| :: parts[i] == parts[0]
  }

  /** Parts that are all alike have only one order. */
  lemma AlikeOrder(parts: seq<Part>, other: seq<Part>)
    requires Alike(parts) && multiset(other) == multiset(parts)
    ensures other == parts
  {
    assert |other| == |multiset(other)| == |multiset(parts)| == |parts|;
    forall i | 0 <= i < |other|
      ensures other[i] == parts[i]
    {
      assert other[i] in multiset(other);
      assert other[i] in parts;
    }
  }

  /** An order of greatest cost is best in both counts at once. */
  lemma BestOrder(src: seq<Part>, best: seq<Part>, other: seq<Part>)
    requires |src| == |best| && AllParts(src) && AllParts(best) && Unclamped(src) && Unclamped(best)
    requires multiset(other) == multiset(best)
    ensures |src| == |other| && AllParts(other)
    ensures Cost(src, best) >= Cost(src, other)
            ==> Recovers(src, best) <= Recovers(src, other) && Removes(src, best) <= Removes(src, other)
  {
    SameMembers(best, other);
    SliceBalance(src, best);
    SliceBalance(src, other);
    CopiesOfMultiset(best, other);
    CostOfCounts(src, best);
    CostOfCounts(src, other);
    if Cost(src, best) >= Cost(src, other) {
      LessOfBoth(MAX_SLICE_OP, Recovers(src, best), Removes(src, best), Recovers(src, other), Removes(src, other),
                 AllCopies(src), AllCopies(best));
    }
  }

  lemma SameMembers(a: seq<Part>, b: seq<Part>)
    requires multiset(a) == multiset(b) && AllParts(a)
    ensures |a| == |b| && AllParts(b) && (Unclamped(a) ==> Unclamped(b))
  {
    assert |a| == |multiset(a)| == |multiset(b)| == |b|;
    forall i | 0 <= i < |b|
      ensures b[i] in a
    {
      assert b[i] in multiset(b);
    }
  }

  /** No other order of the parts of a slice needs fewer copies made, or fewer removed. */
  ghost predicate BestSlice(av: Goal, s: Slice)
    requires IsGoal(av) && IsSlice(s)
  {
    forall t: Slice | IsSlice(t) && SameSlice(t, s) ::
      RecoversOf(av, s) <= RecoversOf(av, t) && RemovesOf(av, s) <= RemovesOf(av, t)
  }

  /** The order that was chosen has the greatest cost. */
  ghost predicate GreatestCost(av: Goal, s: Slice)
    requires IsGoal(av) && IsSlice(s)
  {
    PartsOfShape(av, s.kind);
    forall t: Slice | IsSlice(t) && SameSlice(t, s) ::
      Cost(PartsOf(av, s.kind), s.parts) >= Cost(PartsOf(av, s.kind), t.parts)
  }

  lemma GreatestIsBest(av: Goal, s: Slice)
    requires IsGoal(av) && IsSlice(s) && GreatestCost(av, s)
    requires Unclamped(PartsOf(av, s.kind)) && Unclamped(s.parts)
    ensures BestSlice(av, s)
  {
    PartsOfShape(av, s.kind);
    forall t: Slice | IsSlice(t) && SameSlice(t, s)
      ensures RecoversOf(av, s) <= RecoversOf(av, t) && RemovesOf(av, s) <= RemovesOf(av, t)
    {
      BestOrder(PartsOf(av, s.kind), s.parts, t.parts);
    }
  }

  /** The permutation gives an order of greatest cost, and no count is cut off. */
  ghost predicate Optimal(av: Goal, s: Slice, a: seq<nat>)
    requires IsGoal(av) && IsSlice(s) && IsPermutation(a, |s.parts|)
  {
    RearrangedSlice(s, a);
    && GreatestCost(av, s.(parts := Permuted(s.parts, a)))
    && Unclamped(PartsOf(av, s.kind)) && Unclamped(s.parts)
  }

  ghost predicate AllOptimal(av: Goal, tg: Goal, a: map<nat, seq<nat>>)
    requires IsGoal(av) && IsGoal(tg) && AreAssignments(a, tg)
  {
    forall i | 0 <= i < |tg| :: Optimal(av, tg[i], a[tg[i].kind])
  }

  lemma OptimalIsBest(av: Goal, s: Slice, a: seq<nat>)
    requires IsGoal(av) && IsSlice(s) && IsPermutation(a, |s.parts|) && Optimal(av, s, a)
    ensures IsSlice(s.(parts := Permuted(s.parts, a))) && BestSlice(av, s.(parts := Permuted(s.parts, a)))
  {
    RearrangedSlice(s, a);
    SameMembers(s.parts, Permuted(s.parts, a));
    GreatestIsBest(av, s.(parts := Permuted(s.parts, a)));
  }

  /** A slice of which nothing is there, or whose parts are alike, has no better order. */
  lemma OnlyIsBest(av: Goal, s: Slice)
    requires IsGoal(av) && IsSlice(s) && (!Has(av, s.kind) || Alike(s.parts))
    ensures BestSlice(av, s)
  {
    PartsOfShape(av, s.kind);
    var src := PartsOf(av, s.kind);
    forall t: Slice | IsSlice(t) && SameSlice(t, s)
      ensures RecoversOf(av, s) <= RecoversOf(av, t) && RemovesOf(av, s) <= RemovesOf(av, t)
    {
      if Alike(s.parts) {
        AlikeOrder(s.parts, t.parts);
      } else {
        MissingSlice(src, s.parts);
        MissingSlice(src, t.parts);
        CopiesOfMultiset(s.parts, t.parts);
      }
    }
  }

  // ----- the best target --------------------------------------------------------------------

  lemma {:induction false} SumsLeast(av: Goal, a: Goal, b: Goal)
    requires IsGoal(av) && AllSlices(a) && AllSlices(b) && SameSlices(b, a)
    requires forall k | 0 <= k < |a| :: BestSlice(av, a[k])
    ensures RecoverTotal(av, a) <= RecoverTotal(av, b) && TargetRemoves(av, a) <= TargetRemoves(av, b)
    decreases |a|
  {
    if a != [] {
      assert SameSlice(b[0], a[0]) && BestSlice(av, a[0]);
      SumsLeast(av, a[1..], b[1..]);
    }
  }

  lemma {:induction false} SameKinds(a: Goal, b: Goal, kind: nat)
    requires SameSlices(a, b)
    ensures Has(a, kind) <==> Has(b, kind)
    decreases |a|
  {
    if a != [] {
      assert SameSlice(a[0], b[0]);
      SameKinds(a[1..], b[1..], kind);
    }
  }

  lemma {:induction false} SameLeftover(av: Goal, a: Goal, b: Goal)
    requires SameSlices(a, b)
    ensures Leftover(av, a) == Leftover(av, b)
    decreases |av|
  {
    if av != [] {
      SameKinds(a, b, av[0].kind);
      SameLeftover(av[1..], a, b);
    }
  }

  /** No other order of the parts of a target needs fewer copies made, or fewer removed. */
  ghost predicate LeastTotals(av: Goal, tg: Goal)
    requires IsGoal(av) && IsGoal(tg)
  {
    forall g: Goal | IsGoal(g) && SameSlices(g, tg) ::
      RecoverTotal(av, tg) <= RecoverTotal(av, g) && RemoveTotal(av, tg) <= RemoveTotal(av, g)
  }

  lemma BestIsLeast(av: Goal, tg: Goal)
    requires IsGoal(av) && IsGoal(tg) && forall k | 0 <= k < |tg| :: BestSlice(av, tg[k])
    ensures LeastTotals(av, tg)
  {
    forall g: Goal | IsGoal(g) && SameSlices(g, tg)
      ensures RecoverTotal(av, tg) <= RecoverTotal(av, g) && RemoveTotal(av, tg) <= RemoveTotal(av, g)
    {
      SumsLeast(av, tg, g);
      SameLeftover(av, g, tg);
    }
  }
}
