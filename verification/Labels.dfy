/** Labels of chunkservers, and how many copies of one part are on servers of each
    label. */
module Labels {

  /** The wildcard is the largest handle. */
  type Label = n: nat | n < 0x1_0000
  const WILDCARD: Label := 0xFFFF

  datatype Entry = Entry(tag: Label, count: nat)

  /** A part: its labels in strictly increasing order. */
  type Part = seq<Entry>

  predicate Sorted(p: Part) {
    forall i, j | 0 <= i < j < |p| :: p[i].tag < p[j].tag
  }

  predicate Positive(p: Part) {
    forall i | 0 <= i < |p| :: p[i].count > 0
  }

  predicate IsPart(p: Part) {
    Sorted(p) && Positive(p)
  }

  function Copies(p: Part, l: Label): nat {
    if p == [] then 0
    else (if p[0].tag == l then p[0].count else 0) + Copies(p[1..], l)
  }

  function Total(p: Part): nat {
    if p == [] then 0 else p[0].count + Total(p[1..])
  }

  lemma {:induction false} NoCopies(p: Part, l: Label)
    requires forall i | 0 <= i < |p| :: p[i].tag != l
    ensures Copies(p, l) == 0
  {
    if p != [] {
      NoCopies(p[1..], l);
    }
  }

  lemma {:induction false} CopiesAt(p: Part, i: nat)
    requires Sorted(p) && i < |p|
    ensures Copies(p, p[i].tag) == p[i].count
  {
    if i == 0 {
      NoCopies(p[1..], p[0].tag);
    } else {
      CopiesAt(p[1..], i - 1);
    }
  }

  lemma {:induction false} CopiesAppend(p: Part, q: Part, l: Label)
    ensures Copies(p + q, l) == Copies(p, l) + Copies(q, l)
  {
    if p == [] {
      assert p + q == q;
    } else {
      assert (p + q)[1..] == p[1..] + q;
      CopiesAppend(p[1..], q, l);
    }
  }

  lemma {:induction false} TotalAppend(p: Part, q: Part)
    ensures Total(p + q) == Total(p) + Total(q)
  {
    if p == [] {
      assert p + q == q;
    } else {
      assert (p + q)[1..] == p[1..] + q;
      TotalAppend(p[1..], q);
    }
  }

  // ----- one copy more, one copy less ------------------------------------------------

  /** The position of a label, or the place where it belongs. */
  function Place(p: Part, l: Label): (k: nat)
    ensures k <= |p|
    ensures forall i | 0 <= i < k :: p[i].tag < l
    ensures k < |p| ==> l <= p[k].tag
  {
    if p == [] || l <= p[0].tag then 0 else 1 + Place(p[1..], l)
  }

  function Increment(p: Part, l: Label): Part {
    var k := Place(p, l);
    if k < |p| && p[k].tag == l then p[k := Entry(l, p[k].count + 1)]
    else p[..k] + [Entry(l, 1)] + p[k..]
  }

  /** An entry that reaches zero is erased; a label that is not there changes nothing. */
  function Decrement(p: Part, l: Label): Part {
    var k := Place(p, l);
    if k < |p| && p[k].tag == l then
      if p[k].count <= 1 then p[..k] + p[k + 1..] else p[k := Entry(l, p[k].count - 1)]
    else p
  }

  lemma SplitAt(p: Part, k: nat, m: Label)
    requires k < |p|
    ensures p == p[..k] + [p[k]] + p[k + 1..]
    ensures Copies(p, m)
         == Copies(p[..k], m) + (if p[k].tag == m then p[k].count else 0) + Copies(p[k + 1..], m)
    ensures Total(p) == Total(p[..k]) + p[k].count + Total(p[k + 1..])
  {
    assert p == p[..k] + [p[k]] + p[k + 1..];
    CopiesAppend(p[..k] + [p[k]], p[k + 1..], m);
    CopiesAppend(p[..k], [p[k]], m);
    TotalAppend(p[..k] + [p[k]], p[k + 1..]);
    TotalAppend(p[..k], [p[k]]);
  }

  lemma Inserted(p: Part, k: nat, e: Entry, m: Label)
    requires k <= |p|
    ensures Copies(p[..k] + [e] + p[k..], m)
         == Copies(p, m) + (if e.tag == m then e.count else 0)
    ensures Total(p[..k] + [e] + p[k..]) == Total(p) + e.count
  {
    var q := p[..k] + [e] + p[k..];
    SplitAt(q, k, m);
    assert q[..k] == p[..k] && q[k + 1..] == p[k..] && p == p[..k] + p[k..];
    CopiesAppend(p[..k], p[k..], m);
    TotalAppend(p[..k], p[k..]);
  }

  lemma Replaced(p: Part, k: nat, c: nat, m: Label)
    requires k < |p|
    ensures var q := p[k := Entry(p[k].tag, c)];
            && Copies(q, m) == Copies(p, m) - (if p[k].tag == m then p[k].count - c else 0)
            && Total(q) == Total(p) - p[k].count + c
  {
    var q := p[k := Entry(p[k].tag, c)];
    SplitAt(p, k, m);
    SplitAt(q, k, m);
    assert q[..k] == p[..k] && q[k + 1..] == p[k + 1..];
  }

  lemma Increments(p: Part, l: Label, m: Label)
    requires Sorted(p)
    ensures Sorted(Increment(p, l)) && (Positive(p) ==> Positive(Increment(p, l)))
    ensures Copies(Increment(p, l), m) == Copies(p, m) + (if m == l then 1 else 0)
    ensures Total(Increment(p, l)) == Total(p) + 1
  {
    var k := Place(p, l);
    if k < |p| && p[k].tag == l {
      Replaced(p, k, p[k].count + 1, m);
    } else {
      Inserted(p, k, Entry(l, 1), m);
      assert forall i | k <= i < |p| :: l < p[i].tag;
    }
  }

  lemma Located(p: Part, l: Label)
    requires Sorted(p) && Copies(p, l) > 0
    ensures var k := Place(p, l); k < |p| && p[k].tag == l && Copies(p, l) == p[k].count
  {
  }

  lemma Erased(p: Part, k: nat, m: Label)
    requires k < |p|
    ensures Copies(p[..k] + p[k + 1..], m) == Copies(p, m) - (if p[k].tag == m then p[k].count else 0)
    ensures Total(p[..k] + p[k + 1..]) == Total(p) - p[k].count
  {
    SplitAt(p, k, m);
    CopiesAppend(p[..k], p[k + 1..], m);
    TotalAppend(p[..k], p[k + 1..]);
  }

  lemma Decrements(p: Part, l: Label, m: Label)
    requires Sorted(p) && Copies(p, l) > 0
    ensures Copies(Decrement(p, l), m) == Copies(p, m) - (if m == l then 1 else 0)
    ensures Total(Decrement(p, l)) == Total(p) - 1
  {
    Located(p, l);
    var k := Place(p, l);
    if p[k].count == 1 {
      Erased(p, k, m);
    } else {
      Replaced(p, k, p[k].count - 1, m);
    }
  }

  lemma DecrementIsPart(p: Part, l: Label)
    requires IsPart(p)
    ensures IsPart(Decrement(p, l))
  {
  }

  lemma {:induction false} CopiesAtMostTotal(p: Part, l: Label)
    ensures Copies(p, l) <= Total(p)
  {
    if p != [] {
      CopiesAtMostTotal(p[1..], l);
    }
  }
}
