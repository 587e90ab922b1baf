/** The copies of a chunk, and how many of them can be lost. */
module Redundancy {
  import opened Labels

  // ----- slice types ------------------------------------------------------------------

  const STANDARD: nat := 0
  const TAPE: nat := 1
  const XOR_FIRST: nat := 2
  const XOR_LAST: nat := 9
  const EC_FIRST: nat := 10
  const TYPE_COUNT: nat := EC_FIRST + 31 * 32

  predicate IsXor(kind: nat) { XOR_FIRST <= kind <= XOR_LAST }

  predicate IsEC(kind: nat) { EC_FIRST <= kind < TYPE_COUNT }

  function ExpectedParts(kind: nat): nat
    requires kind < TYPE_COUNT
  {
    if kind == STANDARD || kind == TAPE then 1
    else if IsXor(kind) then kind + 1
    else 3 + (kind - EC_FIRST) / 32 + (kind - EC_FIRST) % 32
  }

  function DataParts(kind: nat): nat
    requires kind < TYPE_COUNT
  {
    if IsXor(kind) then kind
    else if IsEC(kind) then 2 + (kind - EC_FIRST) / 32
    else 1
  }

  // ----- goals ----------------------------------------------------------------------------

  datatype Slice = Slice(kind: nat, parts: seq<Part>)

  /** Slices in the order of their types, at most one of each. */
  type Goal = seq<Slice>

  ghost predicate IsSlice(s: Slice) {
    s.kind < TYPE_COUNT && |s.parts| == ExpectedParts(s.kind)
    && forall p | 0 <= p < |s.parts| :: IsPart(s.parts[p])
  }

  ghost predicate IsGoal(g: Goal) {
    && (forall i | 0 <= i < |g| :: IsSlice(g[i]))
    && (forall i, j | 0 <= i < j < |g| :: g[i].kind < g[j].kind)
  }

  function Find(g: Goal, kind: nat): (i: nat)
    ensures i <= |g| && (i < |g| ==> g[i].kind == kind)
    ensures forall j | 0 <= j < i :: g[j].kind != kind
  {
    if g == [] || g[0].kind == kind then 0 else 1 + Find(g[1..], kind)
  }

  predicate Has(g: Goal, kind: nat) {
    Find(g, kind) < |g|
  }

  // ----- levels -----------------------------------------------------------------------------

  function AllCopies(parts: seq<Part>): nat {
    if parts == [] then 0 else Total(parts[0]) + AllCopies(parts[1..])
  }

  function Present(parts: seq<Part>): nat {
    if parts == [] then 0 else (if Total(parts[0]) > 0 then 1 else 0) + Present(parts[1..])
  }

  function SliceLevel(s: Slice): int
    requires s.kind < TYPE_COUNT
  {
    if s.kind == STANDARD then AllCopies(s.parts) - 1
    else if IsXor(s.kind) || IsEC(s.kind) then Present(s.parts) - DataParts(s.kind)
    else -1
  }

  function Contribution(level: int): nat {
    if level + 1 > 0 then level + 1 else 0
  }

  ghost function Contributions(g: Goal): nat
    requires forall i | 0 <= i < |g| :: g[i].kind < TYPE_COUNT
  {
    if g == [] then 0 else Contribution(SliceLevel(g[0])) + Contributions(g[1..])
  }

  ghost function Level(g: Goal): int
    requires forall i | 0 <= i < |g| :: g[i].kind < TYPE_COUNT
  {
    Contributions(g) - 1
  }

  // ----- reading --------------------------------------------------------------------------

  /** Some different parts of a slice, as many as it has data parts, all have a copy. The
      codes recover the data from any such parts; tapes are not read. */
  ghost predicate SliceReadable(s: Slice)
    requires s.kind < TYPE_COUNT
  {
    s.kind != TAPE && exists ps: set<nat> :: |ps| == DataParts(s.kind) && AllPresent(s.parts, ps)
  }

  ghost predicate AllPresent(parts: seq<Part>, ps: set<nat>) {
    forall p | p in ps :: p < |parts| && Total(parts[p]) > 0
  }

  ghost predicate Readable(g: Goal)
    requires forall i | 0 <= i < |g| :: g[i].kind < TYPE_COUNT
  {
    exists i | 0 <= i < |g| :: SliceReadable(g[i])
  }

  ghost function PresentSet(parts: seq<Part>): set<nat> {
    set p: nat | p < |parts| && Total(parts[p]) > 0
  }

  lemma {:induction false} PresentSetSize(parts: seq<Part>)
    ensures |PresentSet(parts)| == Present(parts)
  {
    if parts != [] {
      var n := |parts| - 1;
      PresentSetSize(parts[..n]);
      assert parts == parts[..n] + [parts[n]];
      PresentAppend(parts[..n], [parts[n]]);
      if Total(parts[n]) > 0 {
        assert PresentSet(parts) == PresentSet(parts[..n]) + {n};
      } else {
        assert PresentSet(parts) == PresentSet(parts[..n]);
      }
    }
  }

  lemma {:induction false} PresentAppend(a: seq<Part>, b: seq<Part>)
    ensures Present(a + b) == Present(a) + Present(b)
    ensures AllCopies(a + b) == AllCopies(a) + AllCopies(b)
  {
    if a == [] {
      assert a + b == b;
    } else {
      assert (a + b)[1..] == a[1..] + b;
      PresentAppend(a[1..], b);
    }
  }

  lemma Subsets<T>(a: set<T>, n: nat) returns (b: set<T>)
    requires n <= |a|
    ensures b <= a && |b| == n
    decreases |a|
  {
    if n == |a| {
      b := a;
    } else {
      var x :| x in a;
      b := Subsets(a - {x}, n);
    }
  }

  lemma SubsetSize<T>(a: set<T>, b: set<T>)
    requires a <= b
    ensures |a| <= |b|
  {
    assert b == a + (b - a);
  }

  lemma SliceReadableIff(s: Slice)
    requires IsSlice(s)
    ensures SliceLevel(s) >= 0 <==> SliceReadable(s)
  {
    PresentSetSize(s.parts);
    if s.kind == STANDARD {
      assert s.parts == [s.parts[0]];
      assert Present(s.parts) >= 1 <==> AllCopies(s.parts) >= 1;
    }
    var all := PresentSet(s.parts);
    if s.kind != TAPE && |all| >= DataParts(s.kind) {
      var ps := Subsets(all, DataParts(s.kind));
      assert AllPresent(s.parts, ps);
    }
    if SliceReadable(s) {
      var ps: set<nat> :| |ps| == DataParts(s.kind) && AllPresent(s.parts, ps);
      SubsetSize(ps, all);
    }
  }

  /** The level is not negative exactly when the chunk can be read. */
  lemma {:induction false} ReadableIff(g: Goal)
    requires IsGoal(g)
    ensures Level(g) >= 0 <==> Readable(g)
  {
    if g != [] {
      SliceReadableIff(g[0]);
      ReadableIff(g[1..]);
      if Readable(g[1..]) {
        var i :| 0 <= i < |g[1..]| && SliceReadable(g[1..][i]);
        assert SliceReadable(g[i + 1]);
      }
      if Readable(g) && !SliceReadable(g[0]) {
        var i :| 0 <= i < |g| && SliceReadable(g[i]);
        assert SliceReadable(g[1..][i - 1]);
      }
    }
  }

  // ----- losses -----------------------------------------------------------------------------

  /** One stored copy: of which slice and part, and on which label. */
  datatype Copy = Copy(kind: nat, part: nat, tag: Label)

  predicate Stored(g: Goal, c: Copy) {
    var i := Find(g, c.kind);
    i < |g| && c.part < |g[i].parts| && Copies(g[i].parts[c.part], c.tag) > 0
  }

  function LosePart(s: Slice, part: nat, tag: Label): Slice
    requires part < |s.parts|
  {
    s.(parts := s.parts[part := Decrement(s.parts[part], tag)])
  }

  function Lose(g: Goal, c: Copy): Goal
    requires Stored(g, c)
  {
    var i := Find(g, c.kind);
    g[i := LosePart(g[i], c.part, c.tag)]
  }

  lemma LosePartIsSlice(s: Slice, part: nat, tag: Label)
    requires IsSlice(s) && part < |s.parts|
    ensures IsSlice(LosePart(s, part, tag))
  {
    DecrementIsPart(s.parts[part], tag);
  }

  lemma LoseIsGoal(g: Goal, c: Copy)
    requires IsGoal(g) && Stored(g, c)
    ensures IsGoal(Lose(g, c))
  {
    LosePartIsSlice(g[Find(g, c.kind)], c.part, c.tag);
  }

  lemma PresentUpdate(parts: seq<Part>, p: nat, q: Part)
    requires p < |parts|
    ensures Present(parts[p := q])
         == Present(parts) - (if Total(parts[p]) > 0 then 1 else 0) + (if Total(q) > 0 then 1 else 0)
    ensures AllCopies(parts[p := q]) == AllCopies(parts) - Total(parts[p]) + Total(q)
  {
    var a, b := parts[..p], parts[p + 1..];
    assert parts == a + [parts[p]] + b && parts[p := q] == a + [q] + b;
    PresentAppend(a + [parts[p]], b);
    PresentAppend(a, [parts[p]]);
    PresentAppend(a + [q], b);
    PresentAppend(a, [q]);
  }

  /** What the loss of one copy does to a slice. */
  lemma LossInSlice(s: Slice, part: nat, tag: Label)
    requires IsSlice(s) && part < |s.parts| && Copies(s.parts[part], tag) > 0
    ensures var lower := s.kind == STANDARD || (s.kind != TAPE && Total(s.parts[part]) == 1);
            SliceLevel(LosePart(s, part, tag)) == SliceLevel(s) - (if lower then 1 else 0)
  {
    Decrements(s.parts[part], tag, tag);
    PresentUpdate(s.parts, part, Decrement(s.parts[part], tag));
    CopiesAtMostTotal(s.parts[part], tag);
  }

  ghost predicate Kinds(g: Goal) {
    forall i | 0 <= i < |g| :: g[i].kind < TYPE_COUNT
  }

  lemma {:induction false} ContributionsUpdate(g: Goal, i: nat, s: Slice)
    requires Kinds(g) && i < |g| && s.kind < TYPE_COUNT
    ensures Contributions(g[i := s]) + Contribution(SliceLevel(g[i]))
         == Contributions(g) + Contribution(SliceLevel(s))
  {
    if i == 0 {
      assert g[0 := s][1..] == g[1..];
    } else {
      assert g[i := s][1..] == g[1..][i - 1 := s];
      ContributionsUpdate(g[1..], i - 1, s);
    }
  }

  /** One lost copy lowers the level by one at most. */
  lemma LossLowersByOne(g: Goal, c: Copy)
    requires IsGoal(g) && Stored(g, c)
    ensures IsGoal(Lose(g, c))
    ensures Level(g) - 1 <= Level(Lose(g, c)) <= Level(g)
  {
    LoseIsGoal(g, c);
    var i := Find(g, c.kind);
    LossInSlice(g[i], c.part, c.tag);
    ContributionsUpdate(g, i, LosePart(g[i], c.part, c.tag));
  }

  ghost predicate AreLosses(g: Goal, cs: seq<Copy>)
    decreases |cs|
  {
    cs == [] || (Stored(g, cs[0]) && AreLosses(Lose(g, cs[0]), cs[1..]))
  }

  ghost function LoseAll(g: Goal, cs: seq<Copy>): Goal
    requires AreLosses(g, cs)
    decreases |cs|
  {
    if cs == [] then g else LoseAll(Lose(g, cs[0]), cs[1..])
  }

  lemma {:induction false} LossesLower(g: Goal, cs: seq<Copy>)
    requires IsGoal(g) && AreLosses(g, cs)
    ensures IsGoal(LoseAll(g, cs)) && Level(LoseAll(g, cs)) >= Level(g) - |cs|
    decreases |cs|
  {
    if cs != [] {
      LossLowersByOne(g, cs[0]);
      LossesLower(Lose(g, cs[0]), cs[1..]);
    }
  }

  /** A chunk of level X is still readable after the loss of any X of its copies. */
  lemma SurvivesLosses(g: Goal, cs: seq<Copy>)
    requires IsGoal(g) && AreLosses(g, cs) && |cs| <= Level(g)
    ensures IsGoal(LoseAll(g, cs)) && Readable(LoseAll(g, cs))
  {
    LossesLower(g, cs);
    ReadableIff(LoseAll(g, cs));
  }

  // ----- endangered chunks --------------------------------------------------------------------

  /** A chunk of level zero has one slice of level zero, and no better one. */
  lemma {:induction false} EndangeredSlice(g: Goal) returns (i: nat)
    requires IsGoal(g) && Level(g) == 0
    ensures i < |g| && SliceLevel(g[i]) == 0
    ensures forall j | 0 <= j < |g| && j != i :: SliceLevel(g[j]) < 0
  {
    if SliceLevel(g[0]) >= 0 {
      i := 0;
      AllLost(g[1..]);
      assert forall j | 0 < j < |g| :: g[j] == g[1..][j - 1];
    } else {
      i := EndangeredSlice(g[1..]);
      i := i + 1;
      assert forall j | 0 < j < |g| :: g[j] == g[1..][j - 1];
    }
  }

  lemma {:induction false} AllLost(g: Goal)
    requires Kinds(g)
    ensures Contributions(g) == 0 <==> forall j | 0 <= j < |g| :: SliceLevel(g[j]) < 0
  {
    if g != [] {
      AllLost(g[1..]);
      assert forall j | 0 < j < |g| :: g[j] == g[1..][j - 1];
    }
  }

  ghost predicate HasFatalLoss(g: Goal)
    requires IsGoal(g)
  {
    exists c :: Stored(g, c) && Fatal(g, c)
  }

  ghost predicate Fatal(g: Goal, c: Copy)
    requires IsGoal(g) && Stored(g, c)
  {
    LoseIsGoal(g, c);
    !Readable(Lose(g, c))
  }

  /** A readable slice holds some part exactly once. */
  ghost predicate HasSingleCopy(g: Goal)
    requires IsGoal(g)
  {
    exists i, p | 0 <= i < |g| && 0 <= p < |g[i].parts| ::
      SliceLevel(g[i]) >= 0 && Total(g[i].parts[p]) == 1
  }

  lemma {:induction false} CopyOf(p: Part)
    requires Positive(p) && Total(p) > 0
    ensures p != [] && Copies(p, p[0].tag) > 0
  {
  }

  lemma {:induction false} FindAt(g: Goal, i: nat)
    requires IsGoal(g) && i < |g|
    ensures Find(g, g[i].kind) == i
  {
    if i > 0 {
      assert g[0].kind < g[i].kind;
      FindAt(g[1..], i - 1);
    }
  }

  /** An endangered chunk can be lost with one copy exactly when its readable slice holds
      some part only once: with every part doubled, no single loss is fatal. */
  lemma EndangeredIff(g: Goal)
    requires IsGoal(g) && Level(g) == 0
    ensures HasFatalLoss(g) <==> HasSingleCopy(g)
  {
    var i := EndangeredSlice(g);
    if HasSingleCopy(g) {
      var i', p :| 0 <= i' < |g| && 0 <= p < |g[i'].parts|
                   && SliceLevel(g[i']) >= 0 && Total(g[i'].parts[p]) == 1;
      assert i' == i;
      CopyOf(g[i].parts[p]);
      FindAt(g, i);
      var c := Copy(g[i].kind, p, g[i].parts[p][0].tag);
      LosingLast(g, c, i);
    }
    if HasFatalLoss(g) {
      var c :| Stored(g, c) && Fatal(g, c);
      LoseIsGoal(g, c);
      FatalIsSingle(g, c, i);
    }
  }

  lemma LosingLast(g: Goal, c: Copy, i: nat)
    requires IsGoal(g) && Level(g) == 0 && Stored(g, c) && Find(g, c.kind) == i
    requires SliceLevel(g[i]) == 0 && Total(g[i].parts[c.part]) == 1
    ensures Fatal(g, c)
  {
    LoseIsGoal(g, c);
    LossInSlice(g[i], c.part, c.tag);
    ContributionsUpdate(g, i, LosePart(g[i], c.part, c.tag));
    ReadableIff(Lose(g, c));
  }

  lemma FatalIsSingle(g: Goal, c: Copy, i: nat)
    requires IsGoal(g) && Level(g) == 0 && Stored(g, c) && IsGoal(Lose(g, c)) && !Readable(Lose(g, c))
    requires i < |g| && SliceLevel(g[i]) == 0
    requires forall j | 0 <= j < |g| && j != i :: SliceLevel(g[j]) < 0
    ensures HasSingleCopy(g)
  {
    var k := Find(g, c.kind);
    ReadableIff(Lose(g, c));
    LossInSlice(g[k], c.part, c.tag);
    ContributionsUpdate(g, k, LosePart(g[k], c.part, c.tag));
    assert k == i;
    if g[i].kind == STANDARD {
      assert g[i].parts == [g[i].parts[0]];
    }
    assert Total(g[i].parts[c.part]) == 1;
  }

  /** Two copies each of two parts of a slice of two data parts and a parity: the level is
      zero, and yet every single copy can be lost. */
  lemma DoubledPartsSurvive(g: Goal, a: Label)
    requires g == [Slice(XOR_FIRST, [[Entry(a, 2)], [Entry(a, 2)], []])]
    ensures IsGoal(g) && Level(g) == 0 && !HasFatalLoss(g)
  {
    var parts := g[0].parts;
    assert Total(parts[0]) == 2 && Total(parts[1]) == 2 && Total(parts[2]) == 0;
    PresentAppend([parts[0], parts[1]], [parts[2]]);
    PresentAppend([parts[0]], [parts[1]]);
    assert parts == [parts[0]] + [parts[1]] + [parts[2]];
    assert Present(parts) == 2 && g[1..] == [];
    assert SliceLevel(g[0]) == 0 && Contributions(g[1..]) == 0;
    assert Contributions(g) == 1;
    EndangeredIff(g);
  }
}
