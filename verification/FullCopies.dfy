/** How many complete copies of the data a goal holds: a slice holds as many as there are
    copies of each of some parts that suffice to read it. */
module FullCopies {
  import opened Labels
  import opened Redundancy
  import CopiesCalculator

  const INT_MAX: nat := 0x7FFF_FFFF

  function PartCopies(parts: seq<Part>): (r: seq<nat>)
    ensures |r| == |parts|
  {
    seq(|parts|, i requires 0 <= i < |parts| => Total(parts[i]))
  }

  function CountBelow(cs: seq<nat>, n: nat): nat {
    if cs == [] then 0 else (if cs[0] < n then 1 else 0) + CountBelow(cs[1..], n)
  }

  /** At least `k` parts have `n` copies each, and no more than that can be said. */
  predicate IsKthLargest(cs: seq<nat>, k: nat, n: nat) {
    |cs| - CountBelow(cs, n) >= k && |cs| - CountBelow(cs, n + 1) < k
  }

  lemma {:induction false} BelowMonotone(cs: seq<nat>, m: nat, n: nat)
    requires m <= n
    ensures CountBelow(cs, m) <= CountBelow(cs, n) <= |cs|
  {
    if cs != [] {
      BelowMonotone(cs[1..], m, n);
    }
  }

  lemma {:induction false} BelowAppend(cs: seq<nat>, c: nat, n: nat)
    ensures CountBelow(cs + [c], n) == CountBelow(cs, n) + (if c < n then 1 else 0)
  {
    if cs == [] {
      assert cs + [c] == [c];
    } else {
      assert (cs + [c])[1..] == cs[1..] + [c];
      BelowAppend(cs[1..], c, n);
    }
  }

  lemma KthLargestUnique(cs: seq<nat>, k: nat, m: nat, n: nat)
    requires IsKthLargest(cs, k, m) && IsKthLargest(cs, k, n)
    ensures m == n
  {
    if m < n {
      BelowMonotone(cs, m + 1, n);
    } else if n < m {
      BelowMonotone(cs, n + 1, m);
    }
  }

  function KthLargestFrom(cs: seq<nat>, k: nat, n: nat): (r: nat)
    requires |cs| >= k && |cs| - CountBelow(cs, n + 1) < k
    ensures IsKthLargest(cs, k, r)
    decreases n
  {
    NothingBelowZero(cs);
    if n == 0 || |cs| - CountBelow(cs, n) >= k then n else KthLargestFrom(cs, k, n - 1)
  }

  lemma {:induction false} NothingBelowZero(cs: seq<nat>)
    ensures CountBelow(cs, 0) == 0
  {
    if cs != [] {
      NothingBelowZero(cs[1..]);
    }
  }

  function Sum(cs: seq<nat>): nat {
    if cs == [] then 0 else cs[0] + Sum(cs[1..])
  }

  lemma {:induction false} AllBelow(cs: seq<nat>, n: nat)
    requires forall i | 0 <= i < |cs| :: cs[i] < n
    ensures CountBelow(cs, n) == |cs|
  {
    if cs != [] {
      AllBelow(cs[1..], n);
    }
  }

  lemma {:induction false} AtMostSum(cs: seq<nat>, i: nat)
    requires i < |cs|
    ensures cs[i] <= Sum(cs)
  {
    if i > 0 {
      AtMostSum(cs[1..], i - 1);
    }
  }

  /** The value at place `k - 1` when the counts are put in falling order. */
  function KthLargest(cs: seq<nat>, k: nat): (r: nat)
    requires 0 < k <= |cs|
    ensures IsKthLargest(cs, k, r)
  {
    assert CountBelow(cs, Sum(cs) + 1) == |cs| by {
      forall i | 0 <= i < |cs|
        ensures cs[i] < Sum(cs) + 1
      {
        AtMostSum(cs, i);
      }
      AllBelow(cs, Sum(cs) + 1);
    }
    KthLargestFrom(cs, k, Sum(cs))
  }

  /** Any data parts' worth of parts makes a copy of the data; tapes do not count. */
  function FullCopiesOf(s: Slice): nat
    requires s.kind < TYPE_COUNT && |s.parts| == ExpectedParts(s.kind)
  {
    if s.kind == TAPE then 0 else KthLargest(PartCopies(s.parts), DataParts(s.kind))
  }

  ghost function FullCopiesTotal(g: Goal): nat
    requires IsGoal(g)
  {
    if g == [] then 0 else FullCopiesOf(g[0]) + FullCopiesTotal(g[1..])
  }

  // ----- the slice of one parity -----------------------------------------------------------

  /** The two lowest counts so far. */
  ghost predicate TwoLowest(cs: seq<nat>, l1: nat, l2: nat) {
    && l1 <= l2 <= INT_MAX
    && CountBelow(cs, l1) == 0 && CountBelow(cs, l2) <= 1
    && (l1 < INT_MAX ==> CountBelow(cs, l1 + 1) >= 1)
    && (l2 < INT_MAX ==> CountBelow(cs, l2 + 1) >= 2)
  }

  lemma LowestStep(cs: seq<nat>, l1: nat, l2: nat, c: nat)
    requires TwoLowest(cs, l1, l2) && c <= INT_MAX
    ensures if c < l1 then TwoLowest(cs + [c], c, l1)
            else TwoLowest(cs + [c], l1, if c < l2 then c else l2)
  {
    BelowAppend(cs, c, l1);
    BelowAppend(cs, c, l2);
    BelowAppend(cs, c, c);
    BelowAppend(cs, c, l1 + 1);
    BelowAppend(cs, c, l2 + 1);
    BelowAppend(cs, c, c + 1);
    if c < l1 {
      BelowMonotone(cs, c, l1);
    } else if c < l2 {
      BelowMonotone(cs, c, l2);
      BelowMonotone(cs, l1 + 1, c + 1);
    }
  }

  /** The second lowest number of copies is what all parts but one have. */
  method SecondLowest(parts: seq<Part>) returns (l2: nat)
    requires |parts| >= 2 && forall i | 0 <= i < |parts| :: Total(parts[i]) <= INT_MAX
    ensures IsKthLargest(PartCopies(parts), |parts| - 1, l2)
  {
    var l1 := INT_MAX;
    l2 := INT_MAX;
    ghost var cs := PartCopies(parts);
    for i := 0 to |parts|
      invariant TwoLowest(cs[..i], l1, l2)
    {
      var copies := CopiesCalculator.CountLabels(parts[i]);
      assert cs[..i + 1] == cs[..i] + [copies];
      LowestStep(cs[..i], l1, l2, copies);
      if copies < l1 {
        l2 := l1;
        l1 := copies;
      } else {
        l2 := if l2 < copies then l2 else copies;
      }
    }
    assert cs[..|parts|] == cs;
    if l2 == INT_MAX {
      AllBelow(cs, INT_MAX + 1);
    }
  }

  method GetFullCopiesCount(g: Goal) returns (count: nat)
    requires IsGoal(g)
    requires forall i, p | 0 <= i < |g| && 0 <= p < |g[i].parts| :: Total(g[i].parts[p]) <= INT_MAX
    ensures count == FullCopiesTotal(g)
  {
    count := 0;
    for i := 0 to |g|
      invariant count == FullCopiesTotal(g[..i])
    {
      FullCopiesNext(g, i);
      var copies := 0;
      if g[i].kind == STANDARD {
        copies := CopiesCalculator.ExpectedCopies(g[i]);
        StandardCopies(g[i]);
      } else if IsXor(g[i].kind) {
        copies := SecondLowest(g[i].parts);
        KthLargestUnique(PartCopies(g[i].parts), DataParts(g[i].kind), copies, FullCopiesOf(g[i]));
      } else if IsEC(g[i].kind) {
        copies := KthLargest(PartCopies(g[i].parts), DataParts(g[i].kind));
      }
      count := count + copies;
    }
    assert g[..|g|] == g;
  }

  lemma StandardCopies(s: Slice)
    requires IsSlice(s) && s.kind == STANDARD
    ensures FullCopiesOf(s) == AllCopies(s.parts)
  {
    assert s.parts == [s.parts[0]];
    var cs := PartCopies(s.parts);
    assert cs == [Total(s.parts[0])] && cs[1..] == [];
    assert IsKthLargest(cs, 1, Total(s.parts[0]));
    KthLargestUnique(cs, 1, Total(s.parts[0]), FullCopiesOf(s));
  }

  lemma {:induction false} FullCopiesNext(g: Goal, i: nat)
    requires IsGoal(g) && i < |g|
    ensures FullCopiesTotal(g[..i + 1]) == FullCopiesTotal(g[..i]) + FullCopiesOf(g[i])
    decreases i
  {
    if i > 0 {
      FullCopiesNext(g[1..], i - 1);
      assert g[..i + 1][1..] == g[1..][..i] && g[..i][1..] == g[1..][..i - 1];
    } else {
      assert g[..1][1..] == [];
    }
  }
}
