/** How many copies of one part have to be made and removed to get from the labels it
    is on to the labels it should be on, and which ones. */
module PartCounts {
  import opened Common
  import opened Labels

  function Over(a: nat, b: nat): nat { if a > b then a - b else 0 }

  /** The copies a target asks for on a named label. */
  function Named(dst: Part, l: Label): nat {
    if l == WILDCARD then 0 else Copies(dst, l)
  }

  /** Copies that the named labels of a target miss. */
  function Need(src: Part, dst: Part): nat {
    if dst == [] then 0
    else (if dst[0].tag == WILDCARD then 0 else Over(dst[0].count, Copies(src, dst[0].tag)))
         + Need(src, dst[1..])
  }

  /** Copies beyond what the named labels of a target ask for. */
  function Extra(src: Part, dst: Part): nat {
    if src == [] then 0
    else Over(src[0].count, Named(dst, src[0].tag)) + Extra(src[1..], dst)
  }

  lemma {:induction false} NeedAppend(src: Part, p: Part, q: Part)
    ensures Need(src, p + q) == Need(src, p) + Need(src, q)
  {
    if p == [] {
      assert p + q == q;
    } else {
      assert (p + q)[1..] == p[1..] + q;
      NeedAppend(src, p[1..], q);
    }
  }

  lemma {:induction false} ExtraAppend(p: Part, q: Part, dst: Part)
    ensures Extra(p + q, dst) == Extra(p, dst) + Extra(q, dst)
  {
    if p == [] {
      assert p + q == q;
    } else {
      assert (p + q)[1..] == p[1..] + q;
      ExtraAppend(p[1..], q, dst);
    }
  }

  lemma NeedNext(src: Part, dst: Part, j: nat)
    requires j < |dst|
    ensures Need(src, dst[..j + 1]) == Need(src, dst[..j])
      + (if dst[j].tag == WILDCARD then 0 else Over(dst[j].count, Copies(src, dst[j].tag)))
  {
    assert dst[..j + 1] == dst[..j] + [dst[j]];
    NeedAppend(src, dst[..j], [dst[j]]);
  }

  lemma ExtraNext(src: Part, dst: Part, i: nat)
    requires i < |src|
    ensures Extra(src[..i + 1], dst)
         == Extra(src[..i], dst) + Over(src[i].count, Named(dst, src[i].tag))
  {
    assert src[..i + 1] == src[..i] + [src[i]];
    ExtraAppend(src[..i], [src[i]], dst);
  }

  function Wild(dst: Part): nat { Copies(dst, WILDCARD) }

  /** Extra copies serve for wildcards; what is left of either is to be made or
      removed. */
  function ToRecover(src: Part, dst: Part): nat { Need(src, dst) + Over(Wild(dst), Extra(src, dst)) }

  function ToRemove(src: Part, dst: Part): nat { Over(Extra(src, dst), Wild(dst)) }

  // ----- the merge ------------------------------------------------------------------

  method FindWildcard(dst: Part) returns (wcount: nat)
    requires Sorted(dst)
    ensures wcount == Wild(dst)
  {
    wcount := 0;
    NoCopies([], WILDCARD);
    for i := 0 to |dst|
      invariant wcount == Copies(dst[..i], WILDCARD)
    {
      assert dst[..i + 1] == dst[..i] + [dst[i]];
      CopiesAppend(dst[..i], [dst[i]], WILDCARD);
      if dst[i].tag == WILDCARD {
        CopiesBefore(dst, i);
        wcount := dst[i].count;
      }
    }
    assert dst[..|dst|] == dst;
  }

  lemma CopiesBefore(p: Part, i: nat)
    requires Sorted(p) && i < |p|
    ensures Copies(p[..i], p[i].tag) == 0
  {
    NoCopies(p[..i], p[i].tag);
  }

  /** Where a merge stands: the first `i` labels of the source and the first `j` of the
      target have been passed. */
  ghost predicate Passed(src: Part, dst: Part, i: nat, j: nat) {
    && i <= |src| && j <= |dst|
    && (forall k, m | 0 <= k < i && j <= m < |dst| :: src[k].tag < dst[m].tag)
    && (forall k, m | i <= k < |src| && 0 <= m < j :: dst[m].tag < src[k].tag)
  }

  /** A source label before the next target label is no label of the target. */
  lemma PassSource(src: Part, dst: Part, i: nat, j: nat)
    requires Sorted(src) && Sorted(dst) && Passed(src, dst, i, j) && i < |src|
    requires j < |dst| ==> src[i].tag < dst[j].tag || dst[j].tag == WILDCARD
    ensures Extra(src[..i + 1], dst) == Extra(src[..i], dst) + src[i].count
    ensures (j < |dst| ==> src[i].tag < dst[j].tag) ==> Passed(src, dst, i + 1, j)
  {
    ExtraNext(src, dst, i);
    Unnamed(src, dst, i, j);
  }

  lemma Unnamed(src: Part, dst: Part, i: nat, j: nat)
    requires Sorted(src) && Sorted(dst) && Passed(src, dst, i, j) && i < |src|
    requires j < |dst| ==> src[i].tag < dst[j].tag || dst[j].tag == WILDCARD
    ensures Named(dst, src[i].tag) == 0
  {
    if src[i].tag != WILDCARD {
      assert forall m | j < m < |dst| :: dst[j].tag < dst[m].tag;
      NoCopies(dst, src[i].tag);
    }
  }

  /** The next label is in both. */
  lemma PassBoth(src: Part, dst: Part, i: nat, j: nat)
    requires Sorted(src) && Sorted(dst) && Passed(src, dst, i, j) && i < |src| && j < |dst|
    requires src[i].tag == dst[j].tag != WILDCARD
    ensures Extra(src[..i + 1], dst) == Extra(src[..i], dst) + Over(src[i].count, dst[j].count)
    ensures Need(src, dst[..j + 1]) == Need(src, dst[..j]) + Over(dst[j].count, src[i].count)
    ensures Passed(src, dst, i + 1, j + 1)
  {
    ExtraNext(src, dst, i);
    NeedNext(src, dst, j);
    CopiesAt(src, i);
    CopiesAt(dst, j);
  }

  /** The next target label is not in the source. */
  lemma PassTarget(src: Part, dst: Part, i: nat, j: nat)
    requires Sorted(src) && Sorted(dst) && Passed(src, dst, i, j) && j < |dst|
    requires dst[j].tag != WILDCARD && (i < |src| ==> dst[j].tag < src[i].tag)
    ensures Need(src, dst[..j + 1]) == Need(src, dst[..j]) + dst[j].count
    ensures Passed(src, dst, i, j + 1)
  {
    NeedNext(src, dst, j);
    assert forall k | i < k < |src| :: src[i].tag < src[k].tag;
    NoCopies(src, dst[j].tag);
  }

  lemma {:induction false} NoNeedAfter(src: Part, dst: Part, j: nat)
    requires Sorted(dst) && j <= |dst|
    requires j < |dst| ==> dst[j].tag == WILDCARD
    ensures Need(src, dst) == Need(src, dst[..j])
  {
    if j < |dst| {
      assert j + 1 < |dst| ==> dst[j].tag < dst[j + 1].tag;
      assert |dst| == j + 1;
      NeedNext(src, dst, j);
      assert dst[..j + 1] == dst;
    } else {
      assert dst[..j] == dst;
    }
  }

  /** Some more extra copies: as many as possible serve for wildcards. */
  lemma Absorb(extra: nat, wild: nat, more: nat)
    ensures Over(extra + more, wild) == Over(extra, wild) + (more - Min(Over(wild, extra), more))
    ensures Over(wild, extra + more) == Over(wild, extra) - Min(Over(wild, extra), more)
  {
  }

  /** The source labels before a target label. */
  method AbsorbBefore(src: Part, dst: Part, i0: nat, j: nat, remove0: nat, wcount0: nat)
    returns (i: nat, remove: nat, wcount: nat)
    requires Sorted(src) && Sorted(dst) && Passed(src, dst, i0, j) && j < |dst|
    requires remove0 == Over(Extra(src[..i0], dst), Wild(dst))
    requires wcount0 == Over(Wild(dst), Extra(src[..i0], dst))
    ensures Passed(src, dst, i, j) && i0 <= i && (i < |src| ==> dst[j].tag <= src[i].tag)
    ensures remove == Over(Extra(src[..i], dst), Wild(dst))
    ensures wcount == Over(Wild(dst), Extra(src[..i], dst))
  {
    i, remove, wcount := i0, remove0, wcount0;
    while i < |src| && src[i].tag < dst[j].tag
      invariant Passed(src, dst, i, j) && i0 <= i
      invariant remove == Over(Extra(src[..i], dst), Wild(dst))
      invariant wcount == Over(Wild(dst), Extra(src[..i], dst))
    {
      PassSource(src, dst, i, j);
      Absorb(Extra(src[..i], dst), Wild(dst), src[i].count);
      remove := remove + (src[i].count - Min(wcount, src[i].count));
      wcount := wcount - Min(wcount, src[i].count);
      i := i + 1;
    }
  }

  /** The source labels after the last named target label. */
  method AbsorbRest(src: Part, dst: Part, i0: nat, j: nat, remove0: nat, wcount0: nat)
    returns (remove: nat, wcount: nat)
    requires Sorted(src) && Sorted(dst) && Passed(src, dst, i0, j)
    requires j < |dst| ==> dst[j].tag == WILDCARD
    requires remove0 == Over(Extra(src[..i0], dst), Wild(dst))
    requires wcount0 == Over(Wild(dst), Extra(src[..i0], dst))
    ensures remove == Over(Extra(src, dst), Wild(dst))
    ensures wcount == Over(Wild(dst), Extra(src, dst))
  {
    var i := i0;
    remove, wcount := remove0, wcount0;
    while i < |src|
      invariant i <= |src| && (i < |src| ==> Passed(src, dst, i, j))
      invariant remove == Over(Extra(src[..i], dst), Wild(dst))
      invariant wcount == Over(Wild(dst), Extra(src[..i], dst))
    {
      PassSource(src, dst, i, j);
      PassLast(src, dst, i, j);
      Absorb(Extra(src[..i], dst), Wild(dst), src[i].count);
      remove := remove + (src[i].count - Min(wcount, src[i].count));
      wcount := wcount - Min(wcount, src[i].count);
      i := i + 1;
    }
    assert src[..|src|] == src;
  }

  /** The two-pointer count is the count by label. */
  method OperationCount(src: Part, dst: Part) returns (recover: nat, remove: nat)
    requires Sorted(src) && Sorted(dst)
    ensures recover == ToRecover(src, dst)
    ensures remove == ToRemove(src, dst)
  {
    var wcount := FindWildcard(dst);
    recover, remove := 0, 0;
    var i, j := 0, 0;
    while j < |dst| && dst[j].tag != WILDCARD
      invariant Passed(src, dst, i, j)
      invariant recover == Need(src, dst[..j])
      invariant remove == Over(Extra(src[..i], dst), Wild(dst))
      invariant wcount == Over(Wild(dst), Extra(src[..i], dst))
    {
      i, remove, wcount := AbsorbBefore(src, dst, i, j, remove, wcount);
      if i < |src| && src[i].tag == dst[j].tag {
        PassBoth(src, dst, i, j);
        Absorb(Extra(src[..i], dst), Wild(dst), Over(src[i].count, dst[j].count));
        if dst[j].count < src[i].count {
          var extra := src[i].count - dst[j].count;
          remove := remove + (extra - Min(wcount, extra));
          wcount := wcount - Min(wcount, extra);
        } else if dst[j].count > src[i].count {
          recover := recover + (dst[j].count - src[i].count);
        }
        i := i + 1;
      } else {
        PassTarget(src, dst, i, j);
        recover := recover + dst[j].count;
      }
      j := j + 1;
    }
    NoNeedAfter(src, dst, j);
    remove, wcount := AbsorbRest(src, dst, i, j, remove, wcount);
    recover := recover + wcount;
  }

  /** Before the wildcard, or at the end of the target, every further source label is
      passed. */
  lemma PassLast(src: Part, dst: Part, i: nat, j: nat)
    requires Sorted(src) && Sorted(dst) && Passed(src, dst, i, j) && i < |src|
    requires j < |dst| ==> dst[j].tag == WILDCARD
    ensures i + 1 < |src| ==> Passed(src, dst, i + 1, j)
  {
    if i + 1 < |src| {
      assert src[i].tag < src[i + 1].tag;
      forall m | j <= m < |dst|
        ensures src[i].tag < dst[m].tag
      {
        assert j < m ==> dst[j].tag < dst[m].tag;
      }
    }
  }
}
