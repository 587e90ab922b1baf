/** The parts of a target slice may be permuted. The scalar cost that the optimizer
    maximises weighs copies to make against copies to remove; a permutation of greatest
    cost makes the fewest copies and also removes the fewest. */
module Assignment {
  import opened Common
  import opened Labels
  import opened PartCounts
  import opened Redundancy
  import opened Convergence

  const MAX_EXPECTED_COPIES: nat := 128
  const MAX_SLICE_OP: nat := 10 * MAX_EXPECTED_COPIES

  function PartCost(src: Part, dst: Part): int {
    MAX_SLICE_OP * MAX_SLICE_OP
    - (MAX_SLICE_OP * Min(ToRecover(src, dst), MAX_SLICE_OP - 1)
       + Min(ToRemove(src, dst), MAX_SLICE_OP - 1))
  }

  ghost predicate AllParts(ps: seq<Part>) {
    forall i | 0 <= i < |ps| :: IsPart(ps[i])
  }

  /** The cost of every pair of a source and a target part. */
  method CostMatrix(src: seq<Part>, dst: seq<Part>) returns (cost: array2<int>)
    requires AllParts(src) && AllParts(dst)
    ensures fresh(cost) && cost.Length0 == |src| && cost.Length1 == |dst|
    ensures forall i, j | 0 <= i < |src| && 0 <= j < |dst| :: cost[i, j] == PartCost(src[i], dst[j])
  {
    cost := new int[|src|, |dst|];
    for i := 0 to |src|
      invariant forall k, j | 0 <= k < i && 0 <= j < |dst| :: cost[k, j] == PartCost(src[k], dst[j])
    {
      for t := 0 to |dst|
        invariant forall k, j | 0 <= k < i && 0 <= j < |dst| :: cost[k, j] == PartCost(src[k], dst[j])
        invariant forall j | 0 <= j < t :: cost[i, j] == PartCost(src[i], dst[j])
      {
        var recover, remove := OperationCount(src[i], dst[t]);
        recover := Min(recover, MAX_SLICE_OP - 1);
        remove := Min(remove, MAX_SLICE_OP - 1);
        cost[i, t] := MAX_SLICE_OP * MAX_SLICE_OP - (MAX_SLICE_OP * recover + remove);
      }
    }
  }

  // ----- permutations ----------------------------------------------------------------------

  ghost predicate IsPermutation(a: seq<nat>, n: nat) {
    && |a| == n
    && (forall k | 0 <= k < n :: a[k] < n)
    && (forall k, m | 0 <= k < m < n :: a[k] != a[m])
  }

  function Permuted(dst: seq<Part>, a: seq<nat>): seq<Part>
    requires forall k | 0 <= k < |a| :: a[k] < |dst|
  {
    seq(|a|, k requires 0 <= k < |a| => dst[a[k]])
  }

  ghost function Values(a: seq<nat>): set<nat> {
    set x | x in a
  }

  lemma {:induction false} DistinctSize(a: seq<nat>)
    requires forall k, m | 0 <= k < m < |a| :: a[k] != a[m]
    ensures |Values(a)| == |a|
  {
    if a != [] {
      var n := |a| - 1;
      DistinctSize(a[..n]);
      assert a == a[..n] + [a[n]] && a[n] !in a[..n];
      assert Values(a) == Values(a[..n]) + {a[n]};
    }
  }

  ghost function Below(n: nat): (s: set<nat>)
    ensures |s| == n && forall x: nat :: x in s <==> x < n
  {
    if n == 0 then {} else Below(n - 1) + {n - 1}
  }

  /** A permutation takes every value. */
  lemma Onto(a: seq<nat>, n: nat, v: nat) returns (k: nat)
    requires IsPermutation(a, n) && v < n
    ensures k < n && a[k] == v
  {
    DistinctSize(a);
    assert Values(a) <= Below(n);
    if v !in Values(a) {
      SubsetSize(Values(a), Below(n) - {v});
    }
    k :| 0 <= k < |a| && a[k] == v;
  }

  lemma {:induction false} SamePartsPermuted(dst: seq<Part>, a: seq<nat>)
    requires IsPermutation(a, |dst|)
    ensures multiset(Permuted(dst, a)) == multiset(dst)
    decreases |dst|
  {
    var n := |dst|;
    var p := Permuted(dst, a);
    if n == 0 {
      assert p == dst;
    } else {
      var k := Onto(a, n, n - 1);
      var b := a[..k] + a[k + 1..];
      SamePartsPermuted(dst[..n - 1], b);
      assert Permuted(dst[..n - 1], b) == p[..k] + p[k + 1..];
      assert p == p[..k] + [p[k]] + p[k + 1..];
      assert dst == dst[..n - 1] + [dst[n - 1]];
    }
  }

  lemma SameRest(a: seq<Part>, b: seq<Part>, k: nat)
    requires multiset(a) == multiset(b) && a != [] && k < |b| && b[k] == a[0]
    ensures multiset(a[1..]) == multiset(b[..k] + b[k + 1..])
  {
    assert b == b[..k] + [b[k]] + b[k + 1..] && a == [a[0]] + a[1..];
    assert multiset(a) == multiset{a[0]} + multiset(a[1..]);
    assert multiset(b) == multiset{a[0]} + multiset(b[..k] + b[k + 1..]);
    CancelOne(a[0], multiset(a[1..]), multiset(b[..k] + b[k + 1..]));
  }

  lemma CancelOne(x: Part, m: multiset<Part>, n: multiset<Part>)
    requires multiset{x} + m == multiset{x} + n
    ensures m == n
  {
    assert m == (multiset{x} + m) - multiset{x};
    assert n == (multiset{x} + n) - multiset{x};
  }

  lemma {:induction false} CopiesWithout(b: seq<Part>, k: nat)
    requires k < |b|
    ensures AllCopies(b) == Total(b[k]) + AllCopies(b[..k] + b[k + 1..])
    decreases k
  {
    var r := b[..k] + b[k + 1..];
    if k == 0 {
      assert r == b[1..];
    } else {
      CopiesWithout(b[1..], k - 1);
      assert r[0] == b[0] && r[1..] == b[1..][..k - 1] + b[1..][k..];
    }
  }

  lemma {:induction false} CopiesOfMultiset(a: seq<Part>, b: seq<Part>)
    requires multiset(a) == multiset(b)
    ensures AllCopies(a) == AllCopies(b)
    decreases |a|
  {
    if a == [] {
      assert |multiset(b)| == 0;
    } else {
      assert a[0] in multiset(b);
      var k :| 0 <= k < |b| && b[k] == a[0];
      SameRest(a, b, k);
      CopiesOfMultiset(a[1..], b[..k] + b[k + 1..]);
      CopiesWithout(b, k);
    }
  }

  // ----- sums over a slice ------------------------------------------------------------------

  function Recovers(src: seq<Part>, dst: seq<Part>): nat
    requires |src| == |dst|
  {
    if src == [] then 0 else ToRecover(src[0], dst[0]) + Recovers(src[1..], dst[1..])
  }

  function Removes(src: seq<Part>, dst: seq<Part>): nat
    requires |src| == |dst|
  {
    if src == [] then 0 else ToRemove(src[0], dst[0]) + Removes(src[1..], dst[1..])
  }

  function Cost(src: seq<Part>, dst: seq<Part>): int
    requires |src| == |dst|
  {
    if src == [] then 0 else PartCost(src[0], dst[0]) + Cost(src[1..], dst[1..])
  }

  lemma {:induction false} SliceBalance(src: seq<Part>, dst: seq<Part>)
    requires |src| == |dst| && AllParts(src) && AllParts(dst)
    ensures Recovers(src, dst) + AllCopies(src) == Removes(src, dst) + AllCopies(dst)
    decreases |src|
  {
    if src != [] {
      CountsBalance(src[0], dst[0]);
      SliceBalance(src[1..], dst[1..]);
    }
  }

  /** However the parts of the target are permuted, copies to make and copies to remove
      differ by the same number. */
  lemma PermutationBalance(src: seq<Part>, dst: seq<Part>, a: seq<nat>)
    requires |src| == |dst| && AllParts(src) && AllParts(dst) && IsPermutation(a, |dst|)
    ensures AllParts(Permuted(dst, a))
    ensures Recovers(src, Permuted(dst, a)) + AllCopies(src)
         == Removes(src, Permuted(dst, a)) + AllCopies(dst)
  {
    SliceBalance(src, Permuted(dst, a));
    SamePartsPermuted(dst, a);
    CopiesOfMultiset(Permuted(dst, a), dst);
  }

  /** No part has so many copies that the counts are cut off. */
  ghost predicate Unclamped(ps: seq<Part>) {
    forall i | 0 <= i < |ps| :: Total(ps[i]) < MAX_SLICE_OP
  }

  lemma CostOfPart(src: Part, dst: Part)
    requires IsPart(src) && IsPart(dst) && Total(src) < MAX_SLICE_OP && Total(dst) < MAX_SLICE_OP
    ensures PartCost(src, dst) == MAX_SLICE_OP * MAX_SLICE_OP
                                  - (MAX_SLICE_OP * ToRecover(src, dst) + ToRemove(src, dst))
  {
    CountsBounded(src, dst);
  }

  lemma CostSum(n: nat, r0: nat, d0: nat, r: nat, d: nat, m: nat, square: nat)
    ensures (square - (m * r0 + d0)) + (n * square - (m * r + d))
         == (n + 1) * square - (m * (r0 + r) + (d0 + d))
  {
  }

  lemma {:induction false} CostOfCounts(src: seq<Part>, dst: seq<Part>)
    requires |src| == |dst| && AllParts(src) && AllParts(dst) && Unclamped(src) && Unclamped(dst)
    ensures Cost(src, dst) == |src| * (MAX_SLICE_OP * MAX_SLICE_OP)
                              - (MAX_SLICE_OP * Recovers(src, dst) + Removes(src, dst))
    decreases |src|
  {
    if src != [] {
      CostOfPart(src[0], dst[0]);
      CostOfCounts(src[1..], dst[1..]);
      CostSum(|src| - 1, ToRecover(src[0], dst[0]), ToRemove(src[0], dst[0]),
              Recovers(src[1..], dst[1..]), Removes(src[1..], dst[1..]),
              MAX_SLICE_OP, MAX_SLICE_OP * MAX_SLICE_OP);
    }
  }

  /** A permutation of greatest cost is best in both counts at once. */
  lemma BestAssignment(src: seq<Part>, dst: seq<Part>, best: seq<nat>, other: seq<nat>)
    requires |src| == |dst| && AllParts(src) && AllParts(dst) && Unclamped(src) && Unclamped(dst)
    requires IsPermutation(best, |dst|) && IsPermutation(other, |dst|)
    requires Cost(src, Permuted(dst, best)) >= Cost(src, Permuted(dst, other))
    ensures Recovers(src, Permuted(dst, best)) <= Recovers(src, Permuted(dst, other))
    ensures Removes(src, Permuted(dst, best)) <= Removes(src, Permuted(dst, other))
  {
    PermutationBalance(src, dst, best);
    PermutationBalance(src, dst, other);
    CostOfCounts(src, Permuted(dst, best));
    CostOfCounts(src, Permuted(dst, other));
    LessOfBoth(MAX_SLICE_OP, Recovers(src, Permuted(dst, best)), Removes(src, Permuted(dst, best)),
               Recovers(src, Permuted(dst, other)), Removes(src, Permuted(dst, other)),
               AllCopies(src), AllCopies(dst));
  }

  lemma Scaled(m: nat, a: nat, b: nat)
    requires a <= b
    ensures m * a <= m * b
  {
  }

  /** Two pairs with the same difference: the weighted sum decides both. */
  lemma LessOfBoth(m: nat, r1: nat, d1: nat, r2: nat, d2: nat, s: nat, t: nat)
    requires r1 + s == d1 + t && r2 + s == d2 + t && m * r1 + d1 <= m * r2 + d2
    ensures r1 <= r2 && d1 <= d2
  {
    if r2 < r1 {
      Scaled(m, r2, r1);
    }
  }
}
