/** The calculator of copies as an object: what there is, what there should be, and the
    counts and levels that its methods compute and keep. */
module CopiesCalculator {
  import opened Labels
  import opened PartCounts
  import opened Repair
  import opened Convergence
  import opened Redundancy
  import opened Assignment
  import opened ChunkCounts
  import opened ChunkRepair
  import opened Rearrangement

  datatype State = Safe | Endangered | Lost

  /** The value of a level that has not been evaluated. */
  const UNKNOWN: int := -0x8000_0000

  function Max(a: int, b: int): int { if a < b then b else a }

  // ----- levels of single slices and their sum --------------------------------------------

  method CountLabels(p: Part) returns (n: nat)
    ensures n == Total(p)
  {
    n := 0;
    for i := 0 to |p|
      invariant n == Total(p[..i])
    {
      assert p[..i + 1] == p[..i] + [p[i]];
      TotalAppend(p[..i], [p[i]]);
      n := n + p[i].count;
    }
    assert p[..|p|] == p;
  }

  method EvalSliceRedundancyLevel(s: Slice) returns (level: int)
    requires s.kind < TYPE_COUNT
    ensures level == SliceLevel(s)
  {
    var typeCount: int, copies: int := 0, 0;
    for i := 0 to |s.parts|
      invariant typeCount == Present(s.parts[..i]) && copies == AllCopies(s.parts[..i])
    {
      assert s.parts[..i + 1] == s.parts[..i] + [s.parts[i]];
      PresentAppend(s.parts[..i], [s.parts[i]]);
      var count := CountLabels(s.parts[i]);
      copies := copies + count;
      typeCount := typeCount + (if count > 0 then 1 else 0);
    }
    assert s.parts[..|s.parts|] == s.parts;
    if s.kind == STANDARD {
      return copies - 1;
    } else if IsXor(s.kind) || IsEC(s.kind) {
      return typeCount - DataParts(s.kind);
    }
    return -1;
  }

  lemma {:induction false} ContributionsNext(g: Goal, i: nat)
    requires Kinds(g) && i < |g|
    ensures Contributions(g[..i + 1]) == Contributions(g[..i]) + Contribution(SliceLevel(g[i]))
    decreases i
  {
    if i > 0 {
      ContributionsNext(g[1..], i - 1);
      assert g[..i + 1][1..] == g[1..][..i] && g[..i][1..] == g[1..][..i - 1];
    } else {
      assert g[..1][1..] == [];
    }
  }

  /** The level of a goal that is not the available one. */
  method EvalGoalRedundancyLevel(g: Goal) returns (level: int)
    requires Kinds(g)
    ensures level == Level(g)
  {
    level := 0;
    for i := 0 to |g|
      invariant level == Contributions(g[..i])
    {
      ContributionsNext(g, i);
      var extra := EvalSliceRedundancyLevel(g[i]);
      level := level + Max(extra + 1, 0);
    }
    assert g[..|g|] == g;
    level := level - 1;
  }

  /** The level that is used: the one that was evaluated last, if there is one. */
  ghost function Cached(level: int, g: Goal): int
    requires Kinds(g)
  {
    if level == UNKNOWN then Level(g) else level
  }

  /** The levels that have been recorded are those of the slices of a goal. */
  ghost predicate LevelsMatch(levels: map<nat, int>, g: Goal)
    requires IsGoal(g)
  {
    forall k: nat :: (k in levels <==> Has(g, k))
                  && (k in levels ==> levels[k] == SliceLevel(g[Find(g, k)]))
  }

  ghost function LevelsOf(g: Goal): (m: map<nat, int>)
    requires IsGoal(g)
    ensures LevelsMatch(m, g)
  {
    map i | 0 <= i < |g| && FindsItself(g, i) :: g[i].kind := SliceLevel(g[i])
  }

  /** The slices before the first `i` have had their levels recorded. */
  ghost predicate LevelsUpTo(levels: map<nat, int>, base: map<nat, int>, g: Goal, i: nat)
    requires IsGoal(g) && i <= |g|
  {
    forall k: nat ::
      && (k in levels <==> k in base || Find(g, k) < i)
      && (k in levels ==> levels[k] == if Find(g, k) < i then SliceLevel(g[Find(g, k)]) else base[k])
  }

  lemma LevelsStep(levels: map<nat, int>, base: map<nat, int>, g: Goal, i: nat)
    requires IsGoal(g) && i < |g| && LevelsUpTo(levels, base, g, i)
    ensures LevelsUpTo(levels[g[i].kind := SliceLevel(g[i])], base, g, i + 1)
  {
    FindAt(g, i);
  }

  lemma LevelsEnd(levels: map<nat, int>, base: map<nat, int>, g: Goal, m: map<nat, int>)
    requires IsGoal(g) && LevelsUpTo(levels, base, g, |g|) && LevelsMatch(m, g)
    ensures levels == base + m
    ensures (forall k | k in base :: Has(g, k)) ==> LevelsMatch(levels, g)
  {
  }

  ghost predicate FindsItself(g: Goal, i: nat)
    requires i < |g|
  {
    Find(g, g[i].kind) == i
  }

  // ----- a goal without one of its slices -----------------------------------------------------

  function Without(g: Goal, kind: nat): Goal {
    var i := Find(g, kind);
    if i < |g| then g[..i] + g[i + 1..] else g
  }

  ghost function ContributionOf(g: Goal, kind: nat): nat
    requires Kinds(g)
  {
    if Has(g, kind) then Contribution(SliceLevel(g[Find(g, kind)])) else 0
  }

  lemma {:induction false} ContributionsErase(g: Goal, i: nat)
    requires Kinds(g) && i < |g|
    ensures Contributions(g) == Contributions(g[..i] + g[i + 1..]) + Contribution(SliceLevel(g[i]))
    decreases i
  {
    var r := g[..i] + g[i + 1..];
    if i == 0 {
      assert r == g[1..];
    } else {
      ContributionsErase(g[1..], i - 1);
      assert r[1..] == g[1..][..i - 1] + g[1..][i..];
    }
  }

  lemma ContributionsWithout(g: Goal, kind: nat)
    requires Kinds(g)
    ensures Kinds(Without(g, kind))
    ensures Contributions(g) == Contributions(Without(g, kind)) + ContributionOf(g, kind)
  {
    if Has(g, kind) {
      ContributionsErase(g, Find(g, kind));
    }
  }

  // ----- what a removal does -----------------------------------------------------------------

  ghost function SafeKinds(levels: map<nat, int>): set<nat> {
    set k | k in levels && levels[k] > 0
  }

  ghost function EndangeredKinds(levels: map<nat, int>): set<nat> {
    set k | k in levels && levels[k] == 0
  }

  /** The goal asks for one copy of the slice in all, and one is left. */
  predicate LastRequested(target: Goal, kind: nat, left: Slice) {
    && Has(target, kind)
    && AllCopies(target[Find(target, kind)].parts) == 1
    && AllCopies(left.parts) >= 1
  }

  ghost predicate SomeSafe(g: Goal)
    requires IsGoal(g)
  {
    exists i | 0 <= i < |g| :: SliceLevel(g[i]) > 0
  }

  /** Two safe slices, or a safe and an endangered one, or three endangered ones. */
  lemma {:induction false} ManySlices(g: Goal, safe: set<nat>, endangered: set<nat>)
    requires IsGoal(g)
    requires forall k | k in safe :: Has(g, k) && SliceLevel(g[Find(g, k)]) > 0
    requires forall k | k in endangered :: Has(g, k) && SliceLevel(g[Find(g, k)]) == 0
    ensures Contributions(g) >= 2 * |safe| + |endangered|
    decreases |g|
  {
    if g == [] {
      assert safe == {} && endangered == {};
    } else {
      var k := g[0].kind;
      ManySlices(g[1..], safe - {k}, endangered - {k});
      assert !(k in safe && k in endangered);
    }
  }

  /** Without a safe slice, the level counts the endangered ones. */
  lemma {:induction false} FewSlices(g: Goal, endangered: set<nat>)
    requires IsGoal(g) && !SomeSafe(g)
    requires forall i | 0 <= i < |g| && SliceLevel(g[i]) == 0 :: g[i].kind in endangered
    ensures Contributions(g) <= |endangered|
    decreases |g|
  {
    if g != [] {
      var k := g[0].kind;
      assert SliceLevel(g[0]) <= 0;
      assert forall i | 0 <= i < |g[1..]| :: g[1..][i] == g[i + 1];
      if SliceLevel(g[0]) == 0 {
        FewSlices(g[1..], endangered - {k});
      } else {
        FewSlices(g[1..], endangered);
      }
    }
  }

  /** All but one slice are lost: the level of the chunk is that of the one. */
  lemma OnlySlice(g: Goal, i: nat)
    requires IsGoal(g) && i < |g|
    requires forall j | 0 <= j < |g| && j != i :: SliceLevel(g[j]) < 0
    ensures Contributions(g) == Contribution(SliceLevel(g[i]))
  {
    FindAt(g, i);
    ContributionsWithout(g, g[i].kind);
    AllLost(g[..i] + g[i + 1..]);
  }

  /** A lost slice has nothing to lose. */
  lemma LossInLostSlice(g: Goal, c: Copy)
    requires IsGoal(g) && Stored(g, c) && SliceLevel(g[Find(g, c.kind)]) < 0
    ensures IsGoal(Lose(g, c)) && Level(Lose(g, c)) == Level(g)
  {
    LoseIsGoal(g, c);
    var i := Find(g, c.kind);
    LossInSlice(g[i], c.part, c.tag);
    ContributionsUpdate(g, i, LosePart(g[i], c.part, c.tag));
  }

  /** A loss in the only slice that is not lost. */
  lemma LossInOnlySlice(g: Goal, c: Copy)
    requires IsGoal(g) && Stored(g, c)
    requires forall j | 0 <= j < |g| && j != Find(g, c.kind) :: SliceLevel(g[j]) < 0
    requires SliceLevel(g[Find(g, c.kind)]) > 0
    ensures IsGoal(Lose(g, c))
    ensures Level(Lose(g, c)) == SliceLevel(LosePart(g[Find(g, c.kind)], c.part, c.tag))
  {
    LoseIsGoal(g, c);
    var i := Find(g, c.kind);
    LossInSlice(g[i], c.part, c.tag);
    OnlySlice(Lose(g, c), i);
  }

  lemma Singleton(s: set<nat>, a: nat, b: nat)
    requires |s| == 1 && a in s && b in s
    ensures a == b
  {
    if a != b {
      SubsetSize({a, b}, s);
    }
  }

  /** The levels of the slices, counted by the sets of safe and endangered slices. */
  lemma OneSafeAlone(g: Goal, levels: map<nat, int>, kind: nat)
    requires IsGoal(g) && LevelsMatch(levels, g) && kind in levels && levels[kind] >= 0
    requires |SafeKinds(levels)| == 1 && EndangeredKinds(levels) == {}
    ensures levels[kind] > 0
    ensures forall j | 0 <= j < |g| && j != Find(g, kind) :: SliceLevel(g[j]) < 0
  {
    assert kind !in EndangeredKinds(levels);
    assert kind in SafeKinds(levels);
    forall j | 0 <= j < |g| && j != Find(g, kind)
      ensures SliceLevel(g[j]) < 0
    {
      FindAt(g, j);
      var k := g[j].kind;
      assert k in levels && k != kind;
      if k in SafeKinds(levels) {
        Singleton(SafeKinds(levels), k, kind);
      }
      assert k !in SafeKinds(levels) && k !in EndangeredKinds(levels);
    }
  }

  // ----- counting operations ---------------------------------------------------------------------

  function Pair(src: Part, dst: Part): (nat, nat) {
    (ToRecover(src, dst), ToRemove(src, dst))
  }

  ghost predicate PairsMatch(pairs: seq<(nat, nat)>, src: seq<Part>, dst: seq<Part>) {
    |pairs| == |src| == |dst| && forall p | 0 <= p < |src| :: pairs[p] == Pair(src[p], dst[p])
  }

  /** A slice that is there and wanted: each part is counted. */
  method SliceCounts(src: seq<Part>, dst: seq<Part>)
    returns (pairs: seq<(nat, nat)>, recover: nat, remove: nat)
    requires |src| == |dst| && AllParts(src) && AllParts(dst)
    ensures PairsMatch(pairs, src, dst)
    ensures recover == Recovers(src, dst) && remove == Removes(src, dst)
  {
    pairs, recover, remove := [], 0, 0;
    for i := 0 to |dst|
      invariant PairsMatch(pairs, src[..i], dst[..i])
      invariant recover == Recovers(src[..i], dst[..i]) && remove == Removes(src[..i], dst[..i])
    {
      SumsNext(src, dst, i);
      var first, second := OperationCount(src[i], dst[i]);
      pairs := pairs + [(first, second)];
      recover := recover + first;
      remove := remove + second;
    }
    assert src[..|dst|] == src && dst[..|dst|] == dst;
  }

  /** A slice that is not there: every wanted copy is to be made. */
  method MissingCounts(ghost src: seq<Part>, dst: seq<Part>)
    returns (pairs: seq<(nat, nat)>, recover: nat)
    requires |src| == |dst| && forall p | 0 <= p < |src| :: src[p] == []
    ensures PairsMatch(pairs, src, dst)
    ensures recover == Recovers(src, dst) && Removes(src, dst) == 0
  {
    pairs, recover := [], 0;
    for i := 0 to |dst|
      invariant PairsMatch(pairs, src[..i], dst[..i])
      invariant recover == Recovers(src[..i], dst[..i])
    {
      SumsNext(src, dst, i);
      NothingThere(dst[i]);
      var count := CountLabels(dst[i]);
      pairs := pairs + [(count, 0)];
      recover := recover + count;
    }
    assert src[..|dst|] == src && dst[..|dst|] == dst;
    MissingSlice(src, dst);
  }

  /** A slice that is not wanted: every copy is to be removed. */
  method LeftoverCounts(src: seq<Part>, ghost dst: seq<Part>)
    returns (pairs: seq<(nat, nat)>, remove: nat)
    requires |src| == |dst| && AllParts(src) && forall p | 0 <= p < |dst| :: dst[p] == []
    ensures PairsMatch(pairs, src, dst) && remove == AllCopies(src)
  {
    pairs, remove := [], 0;
    for i := 0 to |src|
      invariant PairsMatch(pairs, src[..i], dst[..i]) && remove == AllCopies(src[..i])
    {
      assert src[..i + 1] == src[..i] + [src[i]];
      PresentAppend(src[..i], [src[i]]);
      NothingWanted(src[i]);
      var count := CountLabels(src[i]);
      pairs := pairs + [(0, count)];
      remove := remove + count;
    }
    assert src[..|src|] == src && dst[..|src|] == dst;
  }

  /** The counts of a slice type: there if it has been visited, and then right. */
  ghost predicate CountsMatch(counts: map<nat, seq<(nat, nat)>>, av: Goal, tg: Goal, visited: bool, k: nat)
    requires IsGoal(av) && IsGoal(tg)
  {
    && (k in counts <==> visited)
    && (k in counts ==> k < TYPE_COUNT && PairsMatch(counts[k], PartsOf(av, k), PartsOf(tg, k)))
  }

  /** The first `i` target slices have been counted. */
  ghost predicate CountedTarget(counts: map<nat, seq<(nat, nat)>>, av: Goal, tg: Goal, i: nat)
    requires IsGoal(av) && IsGoal(tg) && i <= |tg|
  {
    forall k: nat :: CountsMatch(counts, av, tg, Find(tg, k) < i, k)
  }

  /** All target slices have been counted, and the first `i` others. */
  ghost predicate CountedAll(counts: map<nat, seq<(nat, nat)>>, av: Goal, tg: Goal, i: nat)
    requires IsGoal(av) && IsGoal(tg) && i <= |av|
  {
    forall k: nat :: CountsMatch(counts, av, tg, Has(tg, k) || Find(av, k) < i, k)
  }

  lemma CountedNext(counts: map<nat, seq<(nat, nat)>>, av: Goal, tg: Goal, i: nat, pairs: seq<(nat, nat)>)
    requires IsGoal(av) && IsGoal(tg) && i < |tg| && CountedTarget(counts, av, tg, i)
    requires PairsMatch(pairs, PartsOf(av, tg[i].kind), tg[i].parts)
    ensures CountedTarget(counts[tg[i].kind := pairs], av, tg, i + 1)
  {
  }

  lemma CountedOther(counts: map<nat, seq<(nat, nat)>>, av: Goal, tg: Goal, i: nat, pairs: seq<(nat, nat)>)
    requires IsGoal(av) && IsGoal(tg) && i < |av| && CountedAll(counts, av, tg, i)
    requires !Has(tg, av[i].kind) && PairsMatch(pairs, av[i].parts, NoParts(av[i].kind))
    ensures CountedAll(counts[av[i].kind := pairs], av, tg, i + 1)
  {
    FindAt(av, i);
    var now := counts[av[i].kind := pairs];
    forall k: nat
      ensures CountsMatch(now, av, tg, Has(tg, k) || Find(av, k) < i + 1, k)
    {
      assert CountsMatch(counts, av, tg, Has(tg, k) || Find(av, k) < i, k);
    }
  }

  lemma TargetCounted(counts: map<nat, seq<(nat, nat)>>, av: Goal, tg: Goal)
    requires IsGoal(av) && IsGoal(tg) && CountedTarget(counts, av, tg, |tg|)
    ensures CountedAll(counts, av, tg, 0)
  {
  }

  lemma CountedSkip(counts: map<nat, seq<(nat, nat)>>, av: Goal, tg: Goal, i: nat)
    requires IsGoal(av) && IsGoal(tg) && i < |av| && CountedAll(counts, av, tg, i)
    requires Has(tg, av[i].kind)
    ensures CountedAll(counts, av, tg, i + 1)
  {
  }

  /** One slice of what is available: counted if the target does not have it. */
  method CountOther(counts: map<nat, seq<(nat, nat)>>, av: Goal, tg: Goal, i: nat)
    returns (now: map<nat, seq<(nat, nat)>>, remove: nat)
    requires IsGoal(av) && IsGoal(tg) && i < |av| && CountedAll(counts, av, tg, i)
    ensures CountedAll(now, av, tg, i + 1)
    ensures remove == if Has(tg, av[i].kind) then 0 else AllCopies(av[i].parts)
  {
    if Find(tg, av[i].kind) == |tg| {
      var pairs;
      pairs, remove := LeftoverCounts(av[i].parts, NoParts(av[i].kind));
      CountedOther(counts, av, tg, i, pairs);
      now := counts[av[i].kind := pairs];
    } else {
      CountedSkip(counts, av, tg, i);
      now, remove := counts, 0;
    }
  }

  /** The slices of the target. */
  method CountTargetSlices(av: Goal, tg: Goal)
    returns (counts: map<nat, seq<(nat, nat)>>, recover: nat, remove: nat)
    requires IsGoal(av) && IsGoal(tg)
    ensures recover == RecoverTotal(av, tg) && remove == TargetRemoves(av, tg)
    ensures CountedTarget(counts, av, tg, |tg|)
  {
    counts, recover, remove := map[], 0, 0;
    for i := 0 to |tg|
      invariant recover == RecoverTotal(av, tg[..i]) && remove == TargetRemoves(av, tg[..i])
      invariant CountedTarget(counts, av, tg, i)
    {
      TotalsNext(av, tg, i);
      var pairs, first, second := CountSlice(av, tg[i]);
      CountedNext(counts, av, tg, i, pairs);
      counts := counts[tg[i].kind := pairs];
      recover, remove := recover + first, remove + second;
    }
    assert tg[..|tg|] == tg;
  }

  method CountSlice(av: Goal, s: Slice) returns (pairs: seq<(nat, nat)>, recover: nat, remove: nat)
    requires IsGoal(av) && IsSlice(s)
    ensures recover == RecoversOf(av, s) && remove == RemovesOf(av, s)
    ensures PairsMatch(pairs, PartsOf(av, s.kind), s.parts)
  {
    PartsOfShape(av, s.kind);
    var j := Find(av, s.kind);
    if j == |av| {
      pairs, recover := MissingCounts(NoParts(s.kind), s.parts);
      remove := 0;
    } else {
      pairs, recover, remove := SliceCounts(av[j].parts, s.parts);
    }
  }

  /** The slices that the target does not have. */
  method CountOtherSlices(av: Goal, tg: Goal, before: map<nat, seq<(nat, nat)>>)
    returns (counts: map<nat, seq<(nat, nat)>>, remove: nat)
    requires IsGoal(av) && IsGoal(tg) && CountedAll(before, av, tg, 0)
    ensures remove == Leftover(av, tg) && CountedAll(counts, av, tg, |av|)
  {
    counts, remove := before, 0;
    for i := 0 to |av|
      invariant remove == Leftover(av[..i], tg) && CountedAll(counts, av, tg, i)
    {
      LeftoverNext(av, tg, i);
      var second;
      counts, second := CountOther(counts, av, tg, i);
      remove := remove + second;
    }
    assert av[..|av|] == av;
  }

  // ----- the object ---------------------------------------------------------------------------

  class ChunkCopiesCalculator {
    var available: Goal
    var target: Goal
    var targetRedundancyLevel: int
    var redundancyLevel: int
    var sliceRedundancyLevel: map<nat, int>
    var sliceOperationCount: map<nat, seq<(nat, nat)>>
    var operationCount: (nat, nat)

    ghost predicate Valid()
      reads this
    {
      IsGoal(available) && IsGoal(target)
    }

    /** The recorded levels are those of a goal. */
    ghost predicate SyncedWith(g: Goal)
      reads this
      requires IsGoal(g)
    {
      LevelsMatch(sliceRedundancyLevel, g) && redundancyLevel == Level(g)
    }

    constructor (goal: Goal)
      requires IsGoal(goal)
      ensures Valid() && available == [] && target == goal && sliceRedundancyLevel == map[]
      ensures targetRedundancyLevel == UNKNOWN && redundancyLevel == UNKNOWN
    {
      available, target := [], goal;
      targetRedundancyLevel, redundancyLevel := UNKNOWN, UNKNOWN;
      sliceRedundancyLevel := map[];
      sliceOperationCount := map[];
      operationCount := (0, 0);
    }

    method SetTarget(goal: Goal)
      requires Valid() && IsGoal(goal)
      modifies `target, `targetRedundancyLevel
      ensures Valid() && target == goal && targetRedundancyLevel == UNKNOWN
    {
      target := goal;
      targetRedundancyLevel := UNKNOWN;
    }

    /** One copy more; the other parts and slices stay as they are. */
    method AddPart(kind: nat, part: nat, tag: Label)
      requires Valid() && kind < TYPE_COUNT && part < ExpectedParts(kind)
      modifies `available
      ensures Valid()
      ensures available == Moved(old(available), Move(kind, part, Make(tag)))
      ensures forall k: nat | k < TYPE_COUNT ::
                PartsOf(available, k)
                == if k == kind
                   then PartsOf(old(available), k)[part := Increment(PartsOf(old(available), k)[part], tag)]
                   else PartsOf(old(available), k)
    {
      ReplacedReady(available, kind, part);
      PartsOfShape(available, kind);
      WithSliceKeeps(available, kind, kind);
      var w := WithSlice(available, kind);
      var i := Find(w, kind);
      ghost var q := Increment(PartsOf(available, kind)[part], tag);
      Increments(PartsOf(available, kind)[part], tag, tag);
      forall k: nat | k < TYPE_COUNT
        ensures PartsOf(WithPart(available, kind, part, q), k)
             == if k == kind then PartsOf(available, k)[part := q] else PartsOf(available, k)
      {
        ReplacedKeeps(available, kind, part, q, k);
      }
      ReplacedKeeps(available, kind, part, q, kind);
      available := SetPart(w, i, part, Increment(w[i].parts[part], tag));
    }

    /** One copy less, if there is one. */
    method RemovePart(kind: nat, part: nat, tag: Label)
      requires Valid() && kind < TYPE_COUNT && part < ExpectedParts(kind)
      modifies `available
      ensures Valid()
      ensures available
           == if Stored(old(available), Copy(kind, part, tag))
              then Lose(old(available), Copy(kind, part, tag)) else old(available)
    {
      var i := Find(available, kind);
      if i == |available| {
        return;
      }
      var labels := available[i].parts[part];
      var k := Place(labels, tag);
      if k == |labels| || labels[k].tag != tag {
        NotStored(labels, tag);
        return;
      }
      CopiesAt(labels, k);
      LoseIsGoal(available, Copy(kind, part, tag));
      available := available[i := available[i].(parts := available[i].parts[part := Decrement(labels, tag)])];
    }

    method EvalRedundancyLevel()
      requires Valid()
      modifies `redundancyLevel, `sliceRedundancyLevel
      ensures redundancyLevel == Level(available)
      ensures sliceRedundancyLevel == old(sliceRedundancyLevel) + LevelsOf(available)
      ensures (forall k | k in old(sliceRedundancyLevel) :: Has(available, k)) ==> SyncedWith(available)
    {
      redundancyLevel := 0;
      for i := 0 to |available|
        invariant redundancyLevel == Contributions(available[..i])
        invariant LevelsUpTo(sliceRedundancyLevel, old(sliceRedundancyLevel), available, i)
      {
        ContributionsNext(available, i);
        LevelsStep(sliceRedundancyLevel, old(sliceRedundancyLevel), available, i);
        var extra := EvalSliceRedundancyLevel(available[i]);
        sliceRedundancyLevel := sliceRedundancyLevel[available[i].kind := extra];
        redundancyLevel := redundancyLevel + Max(extra + 1, 0);
      }
      assert available[..|available|] == available;
      redundancyLevel := redundancyLevel - 1;
      LevelsEnd(sliceRedundancyLevel, old(sliceRedundancyLevel), available, LevelsOf(available));
    }

    /** After one slice has changed, the recorded levels are right again exactly if that
        slice had its level recorded before. */
    method UpdateRedundancyLevel(kind: nat, ghost before: Goal)
      requires Valid() && IsGoal(before) && SyncedWith(before)
      requires Without(before, kind) == Without(available, kind)
      modifies `redundancyLevel, `sliceRedundancyLevel
      ensures Has(available, kind) ==> (SyncedWith(available) <==> Has(before, kind))
      ensures Has(available, kind) && !Has(before, kind) ==> redundancyLevel == Level(available) - 1
      ensures !Has(available, kind) ==> redundancyLevel == old(redundancyLevel)
                                        && sliceRedundancyLevel == old(sliceRedundancyLevel)
    {
      if Find(available, kind) == |available| {
        return;
      }
      var previous := if kind in sliceRedundancyLevel then sliceRedundancyLevel[kind] else 0;
      var level := EvalSliceRedundancyLevel(available[Find(available, kind)]);
      ContributionsWithout(before, kind);
      ContributionsWithout(available, kind);
      LevelsAfterUpdate(sliceRedundancyLevel, sliceRedundancyLevel[kind := level], before, available, kind);
      sliceRedundancyLevel := sliceRedundancyLevel[kind := level];
      redundancyLevel := redundancyLevel + (Max(level, -1) - Max(previous, -1));
    }

    /** A level that has been evaluated is taken as it stands, so the answer is about what is
        there as long as no evaluation is missing after a change. */
    method IsSafeEnoughToWrite(minRedundantParts: int) returns (ok: bool)
      requires Valid()
      modifies `redundancyLevel, `sliceRedundancyLevel, `targetRedundancyLevel
      ensures targetRedundancyLevel == Cached(old(targetRedundancyLevel), target)
      ensures redundancyLevel == Cached(old(redundancyLevel), available)
      ensures ok <==> redundancyLevel >= targetRedundancyLevel || redundancyLevel >= minRedundantParts
      ensures old(targetRedundancyLevel) in {UNKNOWN, Level(target)}
              && old(redundancyLevel) in {UNKNOWN, Level(available)}
              ==> (ok <==> Level(available) >= Level(target) || Level(available) >= minRedundantParts)
    {
      if targetRedundancyLevel == UNKNOWN {
        targetRedundancyLevel := EvalGoalRedundancyLevel(target);
      }
      if redundancyLevel == UNKNOWN {
        EvalRedundancyLevel();
      }
      var least := if targetRedundancyLevel < minRedundantParts then targetRedundancyLevel
                   else minRedundantParts;
      ok := redundancyLevel >= least;
    }

    method GetState() returns (state: State)
      requires Valid() && redundancyLevel == Level(available)
      ensures target != [] ==> (state == Lost <==> !Readable(available))
      ensures target != [] ==> (state == Safe <==> Level(available) > 0)
      ensures target == [] ==> state == Safe
    {
      ReadableIff(available);
      if target == [] || redundancyLevel > 0 {
        return Safe;
      }
      if redundancyLevel == 0 {
        return Endangered;
      }
      return Lost;
    }

    method CountStates() returns (safe: nat, endangered: nat)
      ensures safe == |SafeKinds(sliceRedundancyLevel)|
      ensures endangered == |EndangeredKinds(sliceRedundancyLevel)|
    {
      safe, endangered := 0, 0;
      var kinds := sliceRedundancyLevel.Keys;
      ghost var safeSoFar: set<nat>, endangeredSoFar: set<nat> := {}, {};
      while kinds != {}
        invariant kinds <= sliceRedundancyLevel.Keys
        invariant safe == |safeSoFar| && endangered == |endangeredSoFar|
        invariant safeSoFar == SafeKinds(sliceRedundancyLevel) - kinds
        invariant endangeredSoFar == EndangeredKinds(sliceRedundancyLevel) - kinds
        decreases |kinds|
      {
        var kind :| kind in kinds;
        var level := sliceRedundancyLevel[kind];
        if level > 0 {
          safe, safeSoFar := safe + 1, safeSoFar + {kind};
        } else if level == 0 {
          endangered, endangeredSoFar := endangered + 1, endangeredSoFar + {kind};
        }
        kinds := kinds - {kind};
      }
    }

    /** The part of the test that does not look at the slice itself. */
    method RemovePartBasicTest(kind: nat) returns (decided: bool, result: bool)
      requires Valid() && SyncedWith(available)
      ensures target == [] ==> decided && result
      ensures target != [] && (redundancyLevel < 1 || !Has(available, kind)) ==> decided && !result
      ensures target != [] && decided && result
              ==> Has(available, kind)
                  && (Level(available) >= 2
                      || (Level(available) >= 1 && SliceLevel(available[Find(available, kind)]) < 0))
      ensures !decided
              ==> && target != [] && redundancyLevel >= 1 && Has(available, kind)
                  && OnlySafe(available, kind)
      ensures target != [] && decided && !result && redundancyLevel >= 1 && Has(available, kind)
              ==> Paired(available, kind)
    {
      decided, result := true, false;
      if |target| == 0 {
        result := true;
        return;
      }
      if redundancyLevel < 1 || Find(available, kind) == |available| {
        return;
      }
      var safe, endangered := CountStates();
      ManySlices(available, SafeKinds(sliceRedundancyLevel), EndangeredKinds(sliceRedundancyLevel));
      if 2 * safe + endangered > 2 {
        result := true;
        return;
      }
      assert kind in sliceRedundancyLevel;
      if sliceRedundancyLevel[kind] < 0 {
        result := true;
        return;
      }
      if safe != 1 {
        NoneSafe(available, sliceRedundancyLevel, EndangeredKinds(sliceRedundancyLevel));
        FewSlices(available, EndangeredKinds(sliceRedundancyLevel));
        return;
      }
      OneSafeAlone(available, sliceRedundancyLevel, kind);
      decided := false;
    }

    /** The part of the test that looks at the slice, with one copy less. */
    method RemovePartSliceTest(kind: nat, part: nat, tag: Label) returns (ok: bool)
      requires Valid() && Has(available, kind) && part < |available[Find(available, kind)].parts|
      ensures Stored(available, Copy(kind, part, tag))
              ==> var left := LosePart(available[Find(available, kind)], part, tag);
                  left.kind < TYPE_COUNT
                  && (ok <==> LastRequested(target, kind, left) || SliceLevel(left) > 0)
    {
      var i := Find(available, kind);
      var slice := available[i];
      var k := Place(slice.parts[part], tag);
      if k < |slice.parts[part]| && slice.parts[part][k].tag == tag {
        var entry := slice.parts[part][k];
        slice := slice.(parts := slice.parts[part := slice.parts[part][k := Entry(tag, entry.count - 1)]]);
        SameTotals(available[i], part, tag, k);
      } else {
        NotStored(slice.parts[part], tag);
      }
      var j := Find(target, kind);
      if j < |target| {
        var wanted := ExpectedCopies(target[j]);
        var left := ExpectedCopies(slice);
        if wanted == 1 && left >= 1 {
          return true;
        }
      }
      var level := EvalSliceRedundancyLevel(slice);
      ok := level > 0;
    }

    /** The answer for every stored copy; whatever is removed, the chunk stays readable. */
    method CanRemovePart(kind: nat, part: nat, tag: Label) returns (ok: bool)
      requires Valid() && SyncedWith(available) && kind < TYPE_COUNT && part < ExpectedParts(kind)
      ensures target == [] ==> ok
      ensures target != [] && ok ==> Has(available, kind) && Level(available) >= 1
      ensures target != [] && Stored(available, Copy(kind, part, tag))
              ==> RightAnswer(available, target, Copy(kind, part, tag), ok)
    {
      var decided;
      decided, ok := RemovePartBasicTest(kind);
      if decided {
        if target != [] && Stored(available, Copy(kind, part, tag)) {
          DecidedRight(available, target, Copy(kind, part, tag), ok);
        }
        return;
      }
      ok := RemovePartSliceTest(kind, part, tag);
      if Stored(available, Copy(kind, part, tag)) {
        TestedRight(available, target, Copy(kind, part, tag), ok);
      }
    }

    /** The counts of every part of every slice on either side, and their sums. */
    method EvalOperationCount()
      requires Valid()
      modifies `operationCount, `sliceOperationCount
      ensures operationCount == (RecoverTotal(available, target), RemoveTotal(available, target))
      ensures CountedAll(sliceOperationCount, available, target, |available|)
    {
      var counts, recover, remove := CountTargetSlices(available, target);
      TargetCounted(counts, available, target);
      var all, others := CountOtherSlices(available, target, counts);
      sliceOperationCount, operationCount := all, (recover, remove + others);
    }

    /** What is to be made and removed of one part. */
    method CountPartsToMove(kind: nat, part: nat) returns (recover: nat, remove: nat)
      requires Valid() && kind < TYPE_COUNT && part < ExpectedParts(kind)
      requires CountedAll(sliceOperationCount, available, target, |available|)
      ensures |PartsOf(available, kind)| == |PartsOf(target, kind)| == ExpectedParts(kind)
      ensures recover == ToRecover(PartsOf(available, kind)[part], PartsOf(target, kind)[part])
      ensures remove == ToRemove(PartsOf(available, kind)[part], PartsOf(target, kind)[part])
    {
      PartsOfShape(available, kind);
      PartsOfShape(target, kind);
      assert CountsMatch(sliceOperationCount, available, target,
                         Has(target, kind) || Find(available, kind) < |available|, kind);
      if kind !in sliceOperationCount {
        NothingThere([]);
        return 0, 0;
      }
      recover, remove := sliceOperationCount[kind][part].0, sliceOperationCount[kind][part].1;
    }

    method GetLabelsToRecover(kind: nat, part: nat) returns (r: Part)
      requires Valid() && kind < TYPE_COUNT && part < ExpectedParts(kind)
      ensures |PartsOf(available, kind)| == |PartsOf(target, kind)| == ExpectedParts(kind)
      ensures IsRecoverList(r, PartsOf(available, kind)[part], PartsOf(target, kind)[part])
    {
      PartsOfShape(available, kind);
      PartsOfShape(target, kind);
      var i, j := Find(available, kind), Find(target, kind);
      if j == |target| {
        return [];
      }
      if i == |available| {
        return target[j].parts[part];
      }
      r := Repair.GetLabelsToRecover(available[i].parts[part], target[j].parts[part]);
    }

    method GetRemovePool(kind: nat, part: nat) returns (r: Part)
      requires Valid() && kind < TYPE_COUNT && part < ExpectedParts(kind)
      ensures |PartsOf(available, kind)| == |PartsOf(target, kind)| == ExpectedParts(kind)
      ensures IsRemovePool(r, PartsOf(available, kind)[part], PartsOf(target, kind)[part])
    {
      PartsOfShape(available, kind);
      PartsOfShape(target, kind);
      var i, j := Find(available, kind), Find(target, kind);
      if i == |available| {
        return [];
      }
      if j == |target| {
        WholePool(available[i].parts[part]);
        return available[i].parts[part];
      }
      r := Repair.GetRemovePool(available[i].parts[part], target[j].parts[part]);
    }

    /** The parts of one target slice are permuted as the optimizer says, if anything can be
        gained. */
    method RearrangeSlice(s: Slice, a: seq<nat>) returns (r: Slice)
      requires Valid() && IsSlice(s) && IsPermutation(a, |s.parts|)
      ensures IsSlice(r) && SameSlice(r, s)
      ensures Optimal(available, s, a) ==> BestSlice(available, r)
    {
      r := s;
      RearrangedSlice(s, a);
      var skip := IsSkippable(s);
      if Find(available, s.kind) < |available| && |s.parts| > 1 && !skip {
        r := s.(parts := Permuted(s.parts, a));
        if Optimal(available, s, a) {
          OptimalIsBest(available, s, a);
        }
      } else {
        OnlyIsBest(available, s);
      }
    }

    method Rearrange(assignments: map<nat, seq<nat>>)
      requires Valid() && AreAssignments(assignments, target)
      modifies `target
      ensures Valid() && SameSlices(target, old(target))
      ensures AllOptimal(available, old(target), assignments) ==> LeastTotals(available, target)
    {
      for i := 0 to |target|
        invariant Valid() && SameSlices(target, old(target))
        invariant forall k | i <= k < |target| :: target[k] == old(target)[k]
        invariant AllOptimal(available, old(target), assignments)
                  ==> forall k | 0 <= k < i :: BestSlice(available, target[k])
      {
        var s := RearrangeSlice(target[i], assignments[target[i].kind]);
        SameSlicesUpdate(target, old(target), i, s);
        target := target[i := s];
      }
      if AllOptimal(available, old(target), assignments) {
        BestIsLeast(available, target);
      }
    }

    /** The target is rearranged and everything is counted again. Whatever the optimizer
        says, the target asks for the same copies, and copies to make and copies to remove
        differ by the same number; if it finds an order of greatest cost for every slice, no
        other order of the target has fewer copies to make, or fewer to remove. */
    method Optimize(useOptimizer: bool, assignments: map<nat, seq<nat>>)
      requires Valid() && AreAssignments(assignments, target)
      modifies `target, `operationCount, `sliceOperationCount, `redundancyLevel, `sliceRedundancyLevel
      ensures Valid() && SameSlices(target, old(target))
      ensures operationCount == (RecoverTotal(available, target), RemoveTotal(available, target))
      ensures operationCount.0 + GoalCopies(available) == operationCount.1 + GoalCopies(old(target))
      ensures useOptimizer && AllOptimal(available, old(target), assignments) ==> LeastTotals(available, target)
      ensures CountedAll(sliceOperationCount, available, target, |available|)
      ensures redundancyLevel == Level(available)
      ensures sliceRedundancyLevel == old(sliceRedundancyLevel) + LevelsOf(available)
    {
      if useOptimizer {
        Rearrange(assignments);
      }
      SameCopies(target, old(target));
      ChunkBalance(available, target);
      EvalOperationCount();
      EvalRedundancyLevel();
    }
  }

  /** Slices whose parts are all alike need no permuting. */
  method IsSkippable(s: Slice) returns (skip: bool)
    ensures skip <==> Alike(s.parts)
  {
    var i := 1;
    while i < |s.parts|
      invariant 1 <= i && forall k | 0 < k < i && k < |s.parts| :: s.parts[k] == s.parts[0]
    {
      if s.parts[0] != s.parts[i] {
        return false;
      }
      i := i + 1;
    }
    return true;
  }

  /** With nothing wanted, every label that is there is in the pool. */
  lemma WholePool(src: Part)
    requires IsPart(src)
    ensures IsRemovePool(src, src, [])
  {
  }

  /** The slice is one of two endangered ones, and no slice is safe. */
  ghost predicate Paired(g: Goal, kind: nat)
    requires IsGoal(g) && Has(g, kind)
  {
    Level(g) == 1 && !SomeSafe(g) && SliceLevel(g[Find(g, kind)]) == 0
  }

  /** A copy may go if the chunk is safe afterwards, but none of two endangered slices; and
      from the only safe slice also if the goal asks for one copy and one is left. */
  ghost predicate MayRemove(av: Goal, tg: Goal, c: Copy)
    requires IsGoal(av) && Stored(av, c)
  {
    LoseIsGoal(av, c);
    var after := Lose(av, c);
    || (Level(after) >= 1 && !Paired(av, c.kind))
    || (OnlySafe(av, c.kind) && LastRequested(tg, c.kind, after[Find(av, c.kind)]))
  }

  ghost predicate RightAnswer(av: Goal, tg: Goal, c: Copy, ok: bool)
    requires IsGoal(av) && Stored(av, c)
  {
    LoseIsGoal(av, c);
    (ok <==> MayRemove(av, tg, c)) && (ok ==> Readable(Lose(av, c)))
  }

  lemma DecidedRight(av: Goal, tg: Goal, c: Copy, ok: bool)
    requires IsGoal(av) && Stored(av, c)
    requires ok ==> Level(av) >= 2 || (Level(av) >= 1 && SliceLevel(av[Find(av, c.kind)]) < 0)
    requires !ok ==> Level(av) < 1 || Paired(av, c.kind)
    ensures RightAnswer(av, tg, c, ok)
  {
    LossLowersByOne(av, c);
    ReadableIff(Lose(av, c));
    if SliceLevel(av[Find(av, c.kind)]) < 0 {
      LossInLostSlice(av, c);
    }
    if OnlySafe(av, c.kind) {
      OnlySlice(av, Find(av, c.kind));
    }
  }

  lemma TestedRight(av: Goal, tg: Goal, c: Copy, ok: bool)
    requires IsGoal(av) && Stored(av, c) && Level(av) >= 1 && OnlySafe(av, c.kind)
    requires var left := LosePart(av[Find(av, c.kind)], c.part, c.tag);
             left.kind < TYPE_COUNT && (ok <==> LastRequested(tg, c.kind, left) || SliceLevel(left) > 0)
    ensures RightAnswer(av, tg, c, ok)
  {
    LossLowersByOne(av, c);
    ReadableIff(Lose(av, c));
    LossInOnlySlice(av, c);
  }

  lemma DoubledSlice(s: Slice, a: Label)
    requires s == Slice(XOR_FIRST, [[Entry(a, 2)], [Entry(a, 2)], []])
           || s == Slice(XOR_FIRST, [[Entry(a, 1)], [Entry(a, 2)], []])
    ensures IsSlice(s) && SliceLevel(s) == 0
  {
    assert Total(s.parts[0]) > 0 && Total(s.parts[1]) == 2 && Total(s.parts[2]) == 0;
    PresentAppend([s.parts[0], s.parts[1]], [s.parts[2]]);
    PresentAppend([s.parts[0]], [s.parts[1]]);
    assert s.parts == [s.parts[0]] + [s.parts[1]] + [s.parts[2]];
    assert Present(s.parts) == 2;
  }

  lemma SingleSlice(s: Slice, a: Label, n: nat)
    requires s == Slice(STANDARD, [[Entry(a, n)]]) && 0 < n
    ensures IsSlice(s) && SliceLevel(s) == n - 1 && AllCopies(s.parts) == n
  {
    var p := s.parts[0];
    assert p[1..] == [] && Total(p) == n;
    assert s.parts[1..] == [] && AllCopies(s.parts) == Total(p);
  }

  lemma TwoEndangered(g: Goal)
    requires IsGoal(g) && |g| == 2 && SliceLevel(g[0]) == 0 && SliceLevel(g[1]) == 0
    ensures Level(g) == 1 && !SomeSafe(g)
  {
    assert g[1..] == [g[1]] && g[1..][1..] == [];
    assert Contributions(g[1..]) == 1;
  }

  lemma OneLess(p: Part, a: Label)
    requires p == [Entry(a, 2)]
    ensures Decrement(p, a) == [Entry(a, 1)] && Copies(p, a) == 2
  {
  }

  /** Two copies where the goal asks for one: one may be removed, though the chunk is
      endangered afterwards. */
  lemma GenerousAnswer(av: Goal, tg: Goal, c: Copy, a: Label)
    requires av == [Slice(STANDARD, [[Entry(a, 2)]])] && tg == [Slice(STANDARD, [[Entry(a, 1)]])]
    requires c == Copy(STANDARD, 0, a)
    ensures IsGoal(av) && Stored(av, c) && IsGoal(Lose(av, c))
    ensures MayRemove(av, tg, c) && Level(Lose(av, c)) == 0
  {
    SingleSlice(av[0], a, 2);
    SingleSlice(tg[0], a, 1);
    OneLess(av[0].parts[0], a);
    LossInOnlySlice(av, c);
    assert LosePart(av[0], 0, a) == tg[0];
  }

  /** A copy of a doubled part of an endangered slice, beside another endangered slice, may
      not be removed, though the chunk stays safe. */
  lemma CautiousAnswer(av: Goal, tg: Goal, c: Copy, a: Label)
    requires av == [Slice(STANDARD, [[Entry(a, 1)]]), Slice(XOR_FIRST, [[Entry(a, 2)], [Entry(a, 2)], []])]
    requires c == Copy(XOR_FIRST, 0, a)
    ensures IsGoal(av) && Stored(av, c) && IsGoal(Lose(av, c))
    ensures !MayRemove(av, tg, c) && Level(Lose(av, c)) == 1
  {
    SingleSlice(av[0], a, 1);
    DoubledSlice(av[1], a);
    var left := Slice(XOR_FIRST, [[Entry(a, 1)], [Entry(a, 2)], []]);
    DoubledSlice(left, a);
    OneLess(av[1].parts[0], a);
    assert LosePart(av[1], 0, a) == left;
    assert Find(av, c.kind) == 1;
    assert Lose(av, c) == [av[0], left];
    TwoEndangered(av);
    TwoEndangered(Lose(av, c));
  }

  /** All the copies of a slice. */
  method ExpectedCopies(s: Slice) returns (n: nat)
    ensures n == AllCopies(s.parts)
  {
    n := 0;
    for i := 0 to |s.parts|
      invariant n == AllCopies(s.parts[..i])
    {
      assert s.parts[..i + 1] == s.parts[..i] + [s.parts[i]];
      PresentAppend(s.parts[..i], [s.parts[i]]);
      var count := CountLabels(s.parts[i]);
      n := n + count;
    }
    assert s.parts[..|s.parts|] == s.parts;
  }

  ghost predicate OnlySafe(g: Goal, kind: nat)
    requires IsGoal(g) && Has(g, kind)
  {
    SliceLevel(g[Find(g, kind)]) > 0
    && forall j | 0 <= j < |g| && j != Find(g, kind) :: SliceLevel(g[j]) < 0
  }

  lemma NoneSafe(g: Goal, levels: map<nat, int>, endangered: set<nat>)
    requires IsGoal(g) && LevelsMatch(levels, g) && SafeKinds(levels) == {}
    requires endangered == EndangeredKinds(levels)
    ensures !SomeSafe(g)
    ensures forall i | 0 <= i < |g| && SliceLevel(g[i]) == 0 :: g[i].kind in endangered
  {
    forall i | 0 <= i < |g|
      ensures SliceLevel(g[i]) <= 0 && (SliceLevel(g[i]) == 0 ==> g[i].kind in endangered)
    {
      FindAt(g, i);
      assert g[i].kind in levels && g[i].kind !in SafeKinds(levels);
    }
  }

  /** An entry that is counted down to zero, and one that is erased, count the same. */
  lemma SameTotals(s: Slice, part: nat, tag: Label, k: nat)
    requires IsSlice(s) && part < |s.parts| && k < |s.parts[part]| && s.parts[part][k].tag == tag
    requires k == Place(s.parts[part], tag)
    ensures var p := s.parts[part];
            var q := p[k := Entry(tag, p[k].count - 1)];
            var t := s.(parts := s.parts[part := q]);
            && SliceLevel(t) == SliceLevel(LosePart(s, part, tag))
            && AllCopies(t.parts) == AllCopies(LosePart(s, part, tag).parts)
  {
    var p := s.parts[part];
    CopiesAt(p, k);
    Decrements(p, tag, tag);
    Labels.Replaced(p, k, p[k].count - 1, tag);
    PresentUpdate(s.parts, part, p[k := Entry(tag, p[k].count - 1)]);
    PresentUpdate(s.parts, part, Decrement(p, tag));
  }

  lemma SameOthers(before: Goal, after: Goal, kind: nat, k: nat)
    requires IsGoal(before) && IsGoal(after) && Without(before, kind) == Without(after, kind)
    requires k != kind
    ensures Has(before, k) <==> Has(after, k)
    ensures Has(before, k) ==> before[Find(before, k)] == after[Find(after, k)]
  {
    FindWithout(before, kind, k);
    FindWithout(after, kind, k);
  }

  lemma LevelAfterUpdate(levels: map<nat, int>, now: map<nat, int>, before: Goal, after: Goal, kind: nat, k: nat)
    requires IsGoal(before) && IsGoal(after)
    requires Without(before, kind) == Without(after, kind) && Has(after, kind)
    requires now == levels[kind := SliceLevel(after[Find(after, kind)])]
    requires k in levels <==> Has(before, k)
    requires k in levels ==> levels[k] == SliceLevel(before[Find(before, k)])
    ensures k in now <==> Has(after, k)
    ensures k in now ==> now[k] == SliceLevel(after[Find(after, k)])
  {
    if k != kind {
      SameOthers(before, after, kind, k);
    }
  }

  lemma LevelsAfterUpdate(levels: map<nat, int>, now: map<nat, int>, before: Goal, after: Goal, kind: nat)
    requires IsGoal(before) && IsGoal(after) && LevelsMatch(levels, before)
    requires Without(before, kind) == Without(after, kind) && Has(after, kind)
    requires now == levels[kind := SliceLevel(after[Find(after, kind)])]
    ensures LevelsMatch(now, after)
  {
    forall k: nat
      ensures (k in now <==> Has(after, k))
           && (k in now ==> now[k] == SliceLevel(after[Find(after, k)]))
    {
      assert k in levels <==> Has(before, k);
      LevelAfterUpdate(levels, now, before, after, kind, k);
    }
  }

  lemma WithoutIsGoal(g: Goal, kind: nat)
    requires IsGoal(g)
    ensures IsGoal(Without(g, kind))
  {
  }

  lemma FindWithout(g: Goal, kind: nat, k: nat)
    requires IsGoal(g) && k != kind
    ensures IsGoal(Without(g, kind))
    ensures Has(g, k) <==> Has(Without(g, kind), k)
    ensures Has(g, k) ==> g[Find(g, k)] == Without(g, kind)[Find(Without(g, kind), k)]
  {
    var w, i := Without(g, kind), Find(g, kind);
    WithoutIsGoal(g, kind);
    if Has(g, k) {
      var j := Find(g, k);
      var m := if j < i || i == |g| then j else j - 1;
      assert w[m] == g[j];
      FindAt(w, m);
    } else {
      NotLater(w, k);
    }
  }

  lemma NotStored(p: Part, tag: Label)
    requires Sorted(p)
    requires var k := Place(p, tag); k == |p| || p[k].tag != tag
    ensures Copies(p, tag) == 0
  {
  }
}
