/** Repair converges: every copy that is made or dropped on the word of the lists brings
    the part one step closer to its target, and nothing is listed only when it is there. */
module Convergence {
  import opened Common
  import opened Labels
  import opened PartCounts
  import opened Repair

  // ----- recover and remove counts differ by the number of copies ----------------------

  lemma {:induction false} NeedOfNothing(dst: Part)
    ensures Need([], dst) + Wild(dst) == Total(dst)
  {
    if dst != [] {
      NeedOfNothing(dst[1..]);
    }
  }

  /** Labels in front of a source reduce what is needed by what they match. */
  lemma {:induction false} NeedWithFirst(src: Part, dst: Part)
    requires Sorted(src) && Sorted(dst) && src != []
    ensures Need(src, dst) + Min(src[0].count, Named(dst, src[0].tag)) == Need(src[1..], dst)
  {
    if dst != [] {
      NeedWithFirst(src, dst[1..]);
      NoCopies(src[1..], src[0].tag);
      if dst[0].tag == src[0].tag {
        NoCopies(dst[1..], dst[0].tag);
      }
    }
  }

  lemma {:induction false} NeedBalance(src: Part, dst: Part)
    requires Sorted(src) && Sorted(dst)
    ensures Need(src, dst) + Wild(dst) + Total(src) == Total(dst) + Extra(src, dst)
  {
    if src == [] {
      NeedOfNothing(dst);
    } else {
      NeedWithFirst(src, dst);
      NeedBalance(src[1..], dst);
    }
  }

  /** Whatever the labels are, making and dropping differ by the missing copies. */
  lemma CountsBalance(src: Part, dst: Part)
    requires Sorted(src) && Sorted(dst)
    ensures ToRecover(src, dst) + Total(src) == ToRemove(src, dst) + Total(dst)
  {
    NeedBalance(src, dst);
  }

  /** Never more is made than the target holds, nor more dropped than there is. */
  lemma CountsBounded(src: Part, dst: Part)
    requires Sorted(src) && Sorted(dst)
    ensures ToRecover(src, dst) <= Total(dst) && ToRemove(src, dst) <= Total(src)
  {
    NeedAtMost(src, dst);
    NeedBalance(src, dst);
  }

  lemma {:induction false} NeedAtMost(src: Part, dst: Part)
    ensures Need(src, dst) + Wild(dst) <= Total(dst)
  {
    if dst != [] {
      NeedAtMost(src, dst[1..]);
    }
  }

  // ----- one copy more or less ------------------------------------------------------------

  lemma {:induction false} NeedChanges(src: Part, more: Part, dst: Part, l: Label)
    requires Sorted(dst)
    requires forall m: Label :: Copies(more, m) == Copies(src, m) + (if m == l then 1 else 0)
    ensures Need(src, dst)
         == Need(more, dst) + (if l != WILDCARD && Copies(dst, l) > Copies(src, l) then 1 else 0)
  {
    if dst != [] {
      NeedChanges(src, more, dst[1..], l);
      if dst[0].tag == l {
        NoCopies(dst[1..], l);
      }
      assert Copies(more, dst[0].tag) >= Copies(src, dst[0].tag);
    }
  }

  datatype Change = Make(l: Label) | Drop(l: Label)

  /** A named label of the recover list, or any label while it lists wildcards. */
  predicate CanMake(r: Part, l: Label) {
    Copies(r, l) > 0 || Copies(r, WILDCARD) > 0
  }

  function Changed(src: Part, c: Change): Part {
    match c
    case Make(l) => Increment(src, l)
    case Drop(l) => Decrement(src, l)
  }

  /** A change that the lists of the moment allow. */
  predicate Allowed(src: Part, dst: Part, c: Change) {
    match c
    case Make(l) => Missing(src, dst, l) > 0 || Missing(src, dst, WILDCARD) > 0
    case Drop(l) => ToRemove(src, dst) > 0 && Surplus(src, dst, l)
  }

  lemma ListsAllow(src: Part, dst: Part, recover: Part, pool: Part, l: Label)
    requires IsRecoverList(recover, src, dst) && IsRemovePool(pool, src, dst)
    ensures CanMake(recover, l) <==> Allowed(src, dst, Make(l))
    ensures Copies(pool, l) > 0 <==> Allowed(src, dst, Drop(l))
  {
    assert Copies(recover, l) == Missing(src, dst, l);
    assert Copies(recover, WILDCARD) == Missing(src, dst, WILDCARD);
  }

  /** Making a listed copy lowers the recover count by one and does not touch the remove
      count. */
  lemma MakeHelps(src: Part, dst: Part, l: Label)
    requires IsPart(src) && IsPart(dst) && Allowed(src, dst, Make(l))
    ensures IsPart(Increment(src, l))
    ensures ToRecover(Increment(src, l), dst) == ToRecover(src, dst) - 1
    ensures ToRemove(Increment(src, l), dst) == ToRemove(src, dst)
  {
    var more := Increment(src, l);
    forall m: Label
      ensures Copies(more, m) == Copies(src, m) + (if m == l then 1 else 0)
    {
      Increments(src, l, m);
    }
    Increments(src, l, l);
    NeedChanges(src, more, dst, l);
    NeedBalance(src, dst);
    NeedBalance(more, dst);
  }

  /** Dropping a copy of the pool lowers the remove count by one and does not touch the
      recover count. */
  lemma DropHelps(src: Part, dst: Part, l: Label)
    requires IsPart(src) && IsPart(dst) && Allowed(src, dst, Drop(l))
    ensures IsPart(Decrement(src, l))
    ensures ToRecover(Decrement(src, l), dst) == ToRecover(src, dst)
    ensures ToRemove(Decrement(src, l), dst) == ToRemove(src, dst) - 1
  {
    var less := Decrement(src, l);
    forall m: Label
      ensures Copies(src, m) == Copies(less, m) + (if m == l then 1 else 0)
    {
      Decrements(src, l, m);
    }
    Decrements(src, l, l);
    DecrementIsPart(src, l);
    NeedChanges(less, src, dst, l);
    NeedBalance(src, dst);
    NeedBalance(less, dst);
  }

  // ----- when nothing is listed -------------------------------------------------------------

  lemma {:induction false} ExtraHasLabel(src: Part, dst: Part) returns (l: Label)
    requires Sorted(src) && Extra(src, dst) > 0
    ensures Surplus(src, dst, l)
  {
    if Over(src[0].count, Named(dst, src[0].tag)) > 0 {
      l := src[0].tag;
      CopiesAt(src, 0);
    } else {
      l := ExtraHasLabel(src[1..], dst);
      NoCopies(src[1..], src[0].tag);
    }
  }

  lemma {:induction false} NeedHasLabel(src: Part, dst: Part) returns (l: Label)
    requires Sorted(dst) && Need(src, dst) > 0
    ensures l != WILDCARD && Copies(dst, l) > Copies(src, l)
  {
    if dst[0].tag != WILDCARD && dst[0].count > Copies(src, dst[0].tag) {
      l := dst[0].tag;
      CopiesAt(dst, 0);
    } else {
      l := NeedHasLabel(src, dst[1..]);
    }
  }

  lemma {:induction false} NoLabelNoNeed(src: Part, dst: Part)
    requires Sorted(dst)
    requires forall l: Label | l != WILDCARD :: Copies(dst, l) <= Copies(src, l)
    ensures Need(src, dst) == 0
  {
    if Need(src, dst) > 0 {
      var l := NeedHasLabel(src, dst);
    }
  }

  lemma PartWithCopies(p: Part)
    requires Positive(p) && p != []
    ensures Copies(p, p[0].tag) > 0
  {
  }

  /** The pool is empty exactly when nothing is to be removed. */
  lemma PoolEmpty(src: Part, dst: Part, r: Part)
    requires IsPart(src) && IsPart(dst) && IsRemovePool(r, src, dst)
    ensures r == [] <==> ToRemove(src, dst) == 0
  {
    if ToRemove(src, dst) > 0 {
      var l := ExtraHasLabel(src, dst);
      assert Copies(r, l) > 0;
    } else if r != [] {
      PartWithCopies(r);
    }
  }

  /** The recover list is empty exactly when nothing is to be made. */
  lemma RecoverListEmpty(src: Part, dst: Part, r: Part)
    requires IsPart(src) && IsPart(dst) && IsRecoverList(r, src, dst)
    ensures r == [] <==> ToRecover(src, dst) == 0
  {
    assert Copies(r, WILDCARD) == Missing(src, dst, WILDCARD);
    if Need(src, dst) > 0 {
      var l := NeedHasLabel(src, dst);
      assert Copies(r, l) == Missing(src, dst, l);
    } else if r != [] {
      PartWithCopies(r);
      if r[0].tag != WILDCARD {
        NoNeedNoLabel(src, dst, r[0].tag);
      }
    }
  }

  lemma {:induction false} NoNeedNoLabel(src: Part, dst: Part, l: Label)
    requires Sorted(dst) && Need(src, dst) == 0 && l != WILDCARD
    ensures Copies(dst, l) <= Copies(src, l)
  {
    if dst != [] {
      NoNeedNoLabel(src, dst[1..], l);
      if dst[0].tag == l {
        NoCopies(dst[1..], l);
      }
    }
  }

  /** Every named label has at least the copies the target asks for, and there are as
      many copies as it asks for. */
  ghost predicate Meets(src: Part, dst: Part) {
    (forall l: Label | l != WILDCARD :: Copies(dst, l) <= Copies(src, l)) && Total(src) == Total(dst)
  }

  lemma DoneMeansMet(src: Part, dst: Part)
    requires Sorted(src) && Sorted(dst)
    ensures ToRecover(src, dst) == 0 && ToRemove(src, dst) == 0 <==> Meets(src, dst)
  {
    NeedBalance(src, dst);
    if Need(src, dst) == 0 {
      forall l: Label | l != WILDCARD
        ensures Copies(dst, l) <= Copies(src, l)
      {
        NoNeedNoLabel(src, dst, l);
      }
    }
    if Meets(src, dst) {
      NoLabelNoNeed(src, dst);
    }
  }

  // ----- runs --------------------------------------------------------------------------------

  /** As long as something is counted, some change is allowed. */
  lemma StuckMeansDone(src: Part, dst: Part)
    requires IsPart(src) && IsPart(dst)
    ensures ToRecover(src, dst) == 0 && ToRemove(src, dst) == 0
       <==> forall c :: !Allowed(src, dst, c)
  {
    if Need(src, dst) > 0 {
      var l := NeedHasLabel(src, dst);
      assert Allowed(src, dst, Make(l));
    } else if ToRecover(src, dst) > 0 {
      assert Allowed(src, dst, Make(WILDCARD));
    } else if ToRemove(src, dst) > 0 {
      var l := ExtraHasLabel(src, dst);
      assert Allowed(src, dst, Drop(l));
    } else {
      forall l: Label
        ensures Missing(src, dst, l) == 0
      {
        if l != WILDCARD {
          NoNeedNoLabel(src, dst, l);
        }
      }
    }
  }

  ghost predicate IsRepair(src: Part, dst: Part, cs: seq<Change>)
    decreases |cs|
  {
    cs == [] || (Allowed(src, dst, cs[0]) && IsRepair(Changed(src, cs[0]), dst, cs[1..]))
  }

  ghost function Repaired(src: Part, cs: seq<Change>): Part
    decreases |cs|
  {
    if cs == [] then src else Repaired(Changed(src, cs[0]), cs[1..])
  }

  function Makes(cs: seq<Change>): nat {
    if cs == [] then 0 else (if cs[0].Make? then 1 else 0) + Makes(cs[1..])
  }

  function Drops(cs: seq<Change>): nat {
    if cs == [] then 0 else (if cs[0].Drop? then 1 else 0) + Drops(cs[1..])
  }

  /** Every repair, in whatever order and with whatever choices, makes progress at each
      change: what is left is what there was less the changes made. */
  lemma {:induction false} RepairProgress(src: Part, dst: Part, cs: seq<Change>)
    requires IsPart(src) && IsPart(dst) && IsRepair(src, dst, cs)
    ensures IsPart(Repaired(src, cs))
    ensures ToRecover(Repaired(src, cs), dst) + Makes(cs) == ToRecover(src, dst)
    ensures ToRemove(Repaired(src, cs), dst) + Drops(cs) == ToRemove(src, dst)
    decreases |cs|
  {
    if cs != [] {
      OneChange(src, dst, cs[0]);
      RepairProgress(Changed(src, cs[0]), dst, cs[1..]);
    }
  }

  lemma OneChange(src: Part, dst: Part, c: Change)
    requires IsPart(src) && IsPart(dst) && Allowed(src, dst, c)
    ensures IsPart(Changed(src, c))
    ensures ToRecover(Changed(src, c), dst) == ToRecover(src, dst) - (if c.Make? then 1 else 0)
    ensures ToRemove(Changed(src, c), dst) == ToRemove(src, dst) - (if c.Drop? then 1 else 0)
  {
    match c {
      case Make(l) =>
        MakeHelps(src, dst, l);
      case Drop(l) =>
        DropHelps(src, dst, l);
    }
  }

  /** A repair ends after exactly as many changes as were counted at the start, and where
      it ends the target is met. */
  lemma RepairConverges(src: Part, dst: Part, cs: seq<Change>, recover: Part, pool: Part)
    requires IsPart(src) && IsPart(dst) && IsRepair(src, dst, cs)
    requires IsRecoverList(recover, Repaired(src, cs), dst)
    requires IsRemovePool(pool, Repaired(src, cs), dst)
    ensures |cs| <= ToRecover(src, dst) + ToRemove(src, dst)
    ensures recover == [] && pool == [] <==> Meets(Repaired(src, cs), dst)
    ensures recover == [] && pool == [] <==> |cs| == ToRecover(src, dst) + ToRemove(src, dst)
  {
    RepairProgress(src, dst, cs);
    ChangesCounted(cs);
    var end := Repaired(src, cs);
    RecoverListEmpty(end, dst, recover);
    PoolEmpty(end, dst, pool);
    DoneMeansMet(end, dst);
  }

  lemma {:induction false} ChangesCounted(cs: seq<Change>)
    ensures Makes(cs) + Drops(cs) == |cs|
  {
    if cs != [] {
      ChangesCounted(cs[1..]);
    }
  }

  // ----- the counts as differences of multisets --------------------------------------------

  function Bag(p: Part): multiset<Label> {
    if p == [] then multiset{} else Bag(p[1..])[p[0].tag := Bag(p[1..])[p[0].tag] + p[0].count]
  }

  /** The target without its wildcards. */
  function NamedBag(dst: Part): multiset<Label> {
    Bag(dst)[WILDCARD := 0]
  }

  lemma {:induction false} BagCopies(p: Part, l: Label)
    ensures Bag(p)[l] == Copies(p, l)
  {
    if p != [] {
      BagCopies(p[1..], l);
    }
  }

  lemma {:induction false} BagTotal(p: Part)
    ensures |Bag(p)| == Total(p)
  {
    if p != [] {
      BagTotal(p[1..]);
    }
  }

  /** Extra copies are the multiset difference of what there is and what is named. */
  lemma {:induction false} ExtraIsDifference(src: Part, dst: Part)
    requires Sorted(src)
    ensures Extra(src, dst) == |Bag(src) - NamedBag(dst)|
  {
    if src != [] {
      var l := src[0].tag;
      ExtraIsDifference(src[1..], dst);
      NoCopies(src[1..], l);
      BagCopies(src[1..], l);
      BagCopies(dst, l);
      var rest := Bag(src[1..]) - NamedBag(dst);
      assert rest[l] == 0;
      assert Bag(src) - NamedBag(dst) == rest[l := Over(src[0].count, Named(dst, l))];
    }
  }

  /** Needed copies are the multiset difference of what is named and what there is. */
  lemma NeedIsDifference(src: Part, dst: Part)
    requires Sorted(src) && Sorted(dst)
    ensures Need(src, dst) == |NamedBag(dst) - Bag(src)|
  {
    NeedBalance(src, dst);
    ExtraIsDifference(src, dst);
    BagTotal(src);
    BagTotal(dst);
    BagCopies(dst, WILDCARD);
    DifferenceSizes(NamedBag(dst), Bag(src));
  }

  lemma DifferenceSizes(a: multiset<Label>, b: multiset<Label>)
    ensures |a - b| + |b| == |b - a| + |a|
  {
    assert a == (a - b) + (a * b);
    assert b == (b - a) + (a * b);
  }
}
