/** Which copies of a part to make and which may be dropped, and why doing so, one copy
    at a time and in any order, ends with exactly what the target asks for. */
module Repair {
  import opened Common
  import opened Labels
  import opened PartCounts

  // ----- the lists -----------------------------------------------------------------------

  /** What a list of labels to recover says of one label. */
  function Missing(src: Part, dst: Part, l: Label): nat {
    if l == WILDCARD then Over(Wild(dst), Extra(src, dst)) else Over(Copies(dst, l), Copies(src, l))
  }

  predicate Surplus(src: Part, dst: Part, l: Label) {
    Copies(src, l) > Named(dst, l)
  }

  ghost predicate IsRecoverList(r: Part, src: Part, dst: Part) {
    IsPart(r) && forall l: Label :: Copies(r, l) == Missing(src, dst, l)
  }

  /** Any one label of the pool may lose a copy. */
  ghost predicate IsRemovePool(r: Part, src: Part, dst: Part) {
    IsPart(r)
    && forall l: Label :: Copies(r, l) > 0 <==> ToRemove(src, dst) > 0 && Surplus(src, dst, l)
  }

  /** What has been listed after the first `j` target labels. */
  ghost predicate Listed(r: Part, src: Part, dst: Part, j: nat)
    requires j <= |dst|
  {
    && IsPart(r)
    && (forall k, m | 0 <= k < |r| && j <= m < |dst| :: r[k].tag < dst[m].tag)
    && (forall l: Label :: Copies(r, l) == Over(Copies(dst[..j], l), Copies(src, l)))
  }

  lemma ListedCopies(r: Part, src: Part, dst: Part, j: nat, n: nat, l: Label)
    requires Sorted(dst) && j < |dst| && n == Over(dst[j].count, Copies(src, dst[j].tag))
    requires Copies(r, l) == Over(Copies(dst[..j], l), Copies(src, l))
    ensures Copies(if n > 0 then r + [Entry(dst[j].tag, n)] else r, l)
         == Over(Copies(dst[..j + 1], l), Copies(src, l))
  {
    assert dst[..j + 1] == dst[..j] + [dst[j]];
    CopiesBefore(dst, j);
    CopiesAppend(dst[..j], [dst[j]], l);
    CopiesAppend(r, [Entry(dst[j].tag, n)], l);
  }

  lemma ListNext(r: Part, src: Part, dst: Part, j: nat, r2: Part)
    requires Sorted(dst) && Positive(dst) && j < |dst| && Listed(r, src, dst, j)
    requires var n := Over(dst[j].count, Copies(src, dst[j].tag));
             r2 == if n > 0 then r + [Entry(dst[j].tag, n)] else r
    ensures Listed(r2, src, dst, j + 1)
  {
    var n := Over(dst[j].count, Copies(src, dst[j].tag));
    forall l: Label
      ensures Copies(r2, l) == Over(Copies(dst[..j + 1], l), Copies(src, l))
    {
      ListedCopies(r, src, dst, j, n, l);
    }
  }

  lemma ListEnds(r: Part, src: Part, dst: Part, j: nat, wcount: nat, r2: Part)
    requires IsPart(dst) && j <= |dst| && Listed(r, src, dst, j)
    requires forall k | 0 <= k < j :: dst[k].tag != WILDCARD
    requires j < |dst| ==> dst[j].tag == WILDCARD
    requires wcount == Over(Wild(dst), Extra(src, dst))
    requires r2 == if wcount > 0 then r + [Entry(WILDCARD, wcount)] else r
    ensures IsRecoverList(r2, src, dst)
  {
    NoCopies(dst[..j], WILDCARD);
    NoWildcardYet(r, src, dst, j);
    if j < |dst| {
      assert j + 1 < |dst| ==> dst[j].tag < dst[j + 1].tag;
      assert dst == dst[..j] + [dst[j]];
    } else {
      assert dst == dst[..j];
    }
    forall l: Label
      ensures Copies(r2, l) == Missing(src, dst, l)
    {
      CopiesAppend(r, [Entry(WILDCARD, wcount)], l);
      if j < |dst| {
        CopiesAppend(dst[..j], [dst[j]], l);
      }
    }
  }

  lemma NoWildcardYet(r: Part, src: Part, dst: Part, j: nat)
    requires j <= |dst| && Listed(r, src, dst, j)
    requires Copies(dst[..j], WILDCARD) == 0
    ensures forall k | 0 <= k < |r| :: r[k].tag < WILDCARD
  {
    forall k | 0 <= k < |r|
      ensures r[k].tag < WILDCARD
    {
      CopiesAt(r, k);
    }
  }

  /** The source labels before a target label use up wildcards. */
  method SpendBefore(src: Part, dst: Part, i0: nat, j: nat, wcount0: nat)
    returns (i: nat, wcount: nat)
    requires Sorted(src) && Sorted(dst) && Passed(src, dst, i0, j) && j < |dst|
    requires wcount0 == Over(Wild(dst), Extra(src[..i0], dst))
    ensures Passed(src, dst, i, j) && i0 <= i && (i < |src| ==> dst[j].tag <= src[i].tag)
    ensures wcount == Over(Wild(dst), Extra(src[..i], dst))
  {
    i, wcount := i0, wcount0;
    while i < |src| && src[i].tag < dst[j].tag
      invariant Passed(src, dst, i, j) && i0 <= i
      invariant wcount == Over(Wild(dst), Extra(src[..i], dst))
    {
      PassSource(src, dst, i, j);
      Absorb(Extra(src[..i], dst), Wild(dst), src[i].count);
      wcount := wcount - Min(wcount, src[i].count);
      i := i + 1;
    }
  }

  method SpendRest(src: Part, dst: Part, i0: nat, j: nat, wcount0: nat) returns (wcount: nat)
    requires Sorted(src) && Sorted(dst) && Passed(src, dst, i0, j)
    requires j < |dst| ==> dst[j].tag == WILDCARD
    requires wcount0 == Over(Wild(dst), Extra(src[..i0], dst))
    ensures wcount == Over(Wild(dst), Extra(src, dst))
  {
    var i := i0;
    wcount := wcount0;
    while i < |src|
      invariant i <= |src| && (i < |src| ==> Passed(src, dst, i, j))
      invariant wcount == Over(Wild(dst), Extra(src[..i], dst))
    {
      PassSource(src, dst, i, j);
      PassLast(src, dst, i, j);
      Absorb(Extra(src[..i], dst), Wild(dst), src[i].count);
      wcount := wcount - Min(wcount, src[i].count);
      i := i + 1;
    }
    assert src[..|src|] == src;
  }

  method GetLabelsToRecover(src: Part, dst: Part) returns (r: Part)
    requires Sorted(src) && IsPart(dst)
    ensures IsRecoverList(r, src, dst)
  {
    var wcount := FindWildcard(dst);
    r := [];
    var i, j := 0, 0;
    while j < |dst| && dst[j].tag != WILDCARD
      invariant Passed(src, dst, i, j) && Listed(r, src, dst, j)
      invariant forall k | 0 <= k < j :: dst[k].tag != WILDCARD
      invariant wcount == Over(Wild(dst), Extra(src[..i], dst))
    {
      i, wcount := SpendBefore(src, dst, i, j, wcount);
      ghost var r1 := r;
      if i < |src| && src[i].tag == dst[j].tag {
        PassBoth(src, dst, i, j);
        CopiesAt(src, i);
        Absorb(Extra(src[..i], dst), Wild(dst), Over(src[i].count, dst[j].count));
        if dst[j].count > src[i].count {
          r := r + [Entry(dst[j].tag, dst[j].count - src[i].count)];
        }
        if dst[j].count < src[i].count {
          var extra := src[i].count - dst[j].count;
          wcount := wcount - Min(wcount, extra);
        }
        i := i + 1;
      } else {
        PassTarget(src, dst, i, j);
        NotThere(src, dst, i, j);
        r := r + [Entry(dst[j].tag, dst[j].count)];
      }
      ListNext(r1, src, dst, j, r);
      j := j + 1;
    }
    wcount := SpendRest(src, dst, i, j, wcount);
    ghost var r1 := r;
    if wcount > 0 {
      r := r + [Entry(WILDCARD, wcount)];
    }
    ListEnds(r1, src, dst, j, wcount, r);
  }

  lemma NotThere(src: Part, dst: Part, i: nat, j: nat)
    requires Sorted(src) && Passed(src, dst, i, j) && j < |dst|
    requires i < |src| ==> dst[j].tag < src[i].tag
    ensures Copies(src, dst[j].tag) == 0
  {
    assert forall k | i < k < |src| :: src[i].tag < src[k].tag;
    NoCopies(src, dst[j].tag);
  }

  // ----- the pool ------------------------------------------------------------------------

  /** What is in the pool after the first `i` source labels. */
  ghost predicate Pooled(r: Part, src: Part, dst: Part, i: nat)
    requires i <= |src|
  {
    && IsPart(r)
    && (forall k, m | 0 <= k < |r| && i <= m < |src| :: r[k].tag < src[m].tag)
    && (forall l: Label :: Copies(r, l) > 0 <==> Copies(src[..i], l) > Named(dst, l))
  }

  lemma PoolNext(r: Part, src: Part, dst: Part, i: nat, r2: Part)
    requires Sorted(src) && i < |src| && Pooled(r, src, dst, i)
    requires r2 == if src[i].count > Named(dst, src[i].tag) then r + [Entry(src[i].tag, 1)] else r
    ensures Pooled(r2, src, dst, i + 1)
  {
    assert src[..i + 1] == src[..i] + [src[i]];
    CopiesBefore(src, i);
    NoCopies(r, src[i].tag);
    forall l: Label
      ensures Copies(r2, l) > 0 <==> Copies(src[..i + 1], l) > Named(dst, l)
    {
      CopiesAppend(src[..i], [src[i]], l);
      CopiesAppend(r, [Entry(src[i].tag, 1)], l);
    }
  }

  lemma NotNamed(src: Part, dst: Part, i: nat, j: nat)
    requires Sorted(src) && Sorted(dst) && Passed(src, dst, i, j) && i < |src|
    requires j < |dst| ==> src[i].tag < dst[j].tag || dst[j].tag == WILDCARD
    ensures Named(dst, src[i].tag) == 0
  {
    if src[i].tag != WILDCARD {
      assert forall m | j < m < |dst| :: dst[j].tag < dst[m].tag;
      NoCopies(dst, src[i].tag);
    }
  }

  method PoolBefore(src: Part, dst: Part, i0: nat, j: nat, r0: Part, wcount0: nat)
    returns (i: nat, r: Part, wcount: nat)
    requires IsPart(src) && Sorted(dst) && Passed(src, dst, i0, j) && j < |dst|
    requires Pooled(r0, src, dst, i0) && wcount0 == Extra(src[..i0], dst)
    ensures Passed(src, dst, i, j) && i0 <= i && (i < |src| ==> dst[j].tag <= src[i].tag)
    ensures Pooled(r, src, dst, i) && wcount == Extra(src[..i], dst)
  {
    i, r, wcount := i0, r0, wcount0;
    while i < |src| && src[i].tag < dst[j].tag
      invariant Passed(src, dst, i, j) && i0 <= i
      invariant Pooled(r, src, dst, i) && wcount == Extra(src[..i], dst)
    {
      PassSource(src, dst, i, j);
      NotNamed(src, dst, i, j);
      PoolNext(r, src, dst, i, r + [Entry(src[i].tag, 1)]);
      r := r + [Entry(src[i].tag, 1)];
      wcount := wcount + src[i].count;
      i := i + 1;
    }
  }

  /** A target label: only copies beyond what it asks for are extra. */
  method PoolAt(src: Part, dst: Part, i0: nat, j: nat, r0: Part, wcount0: nat)
    returns (i: nat, r: Part, wcount: nat)
    requires IsPart(src) && Sorted(dst) && Passed(src, dst, i0, j) && j < |dst| && dst[j].tag != WILDCARD
    requires i0 < |src| ==> dst[j].tag <= src[i0].tag
    requires Pooled(r0, src, dst, i0) && wcount0 == Extra(src[..i0], dst)
    ensures Passed(src, dst, i, j + 1) && Pooled(r, src, dst, i) && wcount == Extra(src[..i], dst)
  {
    i, r, wcount := i0, r0, wcount0;
    if i < |src| && src[i].tag == dst[j].tag {
      PassBoth(src, dst, i, j);
      CopiesAt(dst, j);
      if dst[j].count < src[i].count {
        r := r + [Entry(dst[j].tag, 1)];
        wcount := wcount + (src[i].count - dst[j].count);
      }
      PoolNext(r0, src, dst, i, r);
      i := i + 1;
    } else {
      PassTarget(src, dst, i, j);
    }
  }

  method PoolRest(src: Part, dst: Part, i0: nat, j: nat, r0: Part, wcount0: nat)
    returns (r: Part, wcount: nat)
    requires IsPart(src) && Sorted(dst) && Passed(src, dst, i0, j)
    requires j < |dst| ==> dst[j].tag == WILDCARD
    requires Pooled(r0, src, dst, i0) && wcount0 == Extra(src[..i0], dst)
    ensures Pooled(r, src, dst, |src|) && wcount == Extra(src, dst)
  {
    var i := i0;
    r, wcount := r0, wcount0;
    while i < |src|
      invariant i <= |src| && (i < |src| ==> Passed(src, dst, i, j))
      invariant Pooled(r, src, dst, i) && wcount == Extra(src[..i], dst)
    {
      PassSource(src, dst, i, j);
      PassLast(src, dst, i, j);
      NotNamed(src, dst, i, j);
      PoolNext(r, src, dst, i, r + [Entry(src[i].tag, 1)]);
      r := r + [Entry(src[i].tag, 1)];
      wcount := wcount + src[i].count;
      i := i + 1;
    }
    assert src[..|src|] == src;
  }

  method GetRemovePool(src: Part, dst: Part) returns (r: Part)
    requires IsPart(src) && Sorted(dst)
    ensures IsRemovePool(r, src, dst)
  {
    var wcount := 0;
    r := [];
    var i: nat, j: nat := 0, 0;
    while j < |dst| && dst[j].tag != WILDCARD
      invariant Passed(src, dst, i, j) && Pooled(r, src, dst, i)
      invariant forall k | 0 <= k < j :: dst[k].tag != WILDCARD
      invariant wcount == Extra(src[..i], dst)
    {
      i, r, wcount := PoolBefore(src, dst, i, j, r, wcount);
      i, r, wcount := PoolAt(src, dst, i, j, r, wcount);
      j := j + 1;
    }
    var wildcards := if j < |dst| then dst[j].count else 0;
    WildcardLast(dst, j);
    r, wcount := PoolRest(src, dst, i, j, r, wcount);
    assert src[..|src|] == src;
    if wcount <= wildcards {
      r := [];
    }
  }

  lemma WildcardLast(dst: Part, j: nat)
    requires Sorted(dst) && j <= |dst| && (j < |dst| ==> dst[j].tag == WILDCARD)
    requires forall k | 0 <= k < j :: dst[k].tag != WILDCARD
    ensures Wild(dst) == if j < |dst| then dst[j].count else 0
  {
    if j < |dst| {
      CopiesAt(dst, j);
    } else {
      NoCopies(dst, WILDCARD);
    }
  }
}
