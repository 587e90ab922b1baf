/** Recovering a part of a slice from whatever can be read, and replicating it in
    batches. */
module Recovery {
  import opened Common
  import opened Redundancy
  import opened Division
  import opened Striping

  const BATCH: nat := 50

  // ----- parts of slices -------------------------------------------------------------------

  predicate IsParityPart(kind: nat, part: nat)
    requires kind < TYPE_COUNT
  {
    if IsXor(kind) then part == 0 else if IsEC(kind) then part >= DataParts(kind) else false
  }

  function DataIndex(kind: nat, part: nat): int {
    if IsXor(kind) then part - 1 else part
  }

  function ParityIndex(kind: nat, part: nat): int
    requires kind < TYPE_COUNT
  {
    if IsEC(kind) then part - DataParts(kind) else 0
  }

  function Stripe<T>(chunk: nat -> T, n: nat, b: nat): seq<T> {
    seq(n, j requires 0 <= j < n => chunk(b * n + j))
  }

  /** Block `b` of a part: a block of the chunk, or one that a code computes from the
      stripe. */
  function StoredBlock<T>(chunk: nat -> T, code: (seq<T>, nat) -> T, kind: nat, part: nat, b: nat): T
    requires kind < TYPE_COUNT && part < ExpectedParts(kind)
  {
    PartKinds(kind, part);
    if IsParityPart(kind, part) then code(Stripe(chunk, DataParts(kind), b), ParityIndex(kind, part))
    else PartBlock(chunk, DataParts(kind), DataIndex(kind, part), b)
  }

  lemma PartKinds(kind: nat, part: nat)
    requires kind < TYPE_COUNT && part < ExpectedParts(kind)
    ensures IsParityPart(kind, part) ==> ParityIndex(kind, part) >= 0
    ensures !IsParityPart(kind, part) ==> 0 <= DataIndex(kind, part) < DataParts(kind)
  {
  }

  // ----- the converters ----------------------------------------------------------------------

  /** Every so many blocks belong to the part. */
  method ConvertToPart<T>(dst: array<T>, src: array<T>, ghost chunk: nat -> T, n: nat, ghost p: nat,
                          ghost first: nat, count: nat)
    requires 0 < n && 0 < count <= dst.Length && src != dst
    requires src.Length >= 1 + (count - 1) * n
    requires forall i | 0 <= i < 1 + (count - 1) * n :: src[i] == chunk(p + first * n + i)
    modifies dst
    ensures forall i | 0 <= i < count :: dst[i] == PartBlock(chunk, n, p, first + i)
  {
    for i := 0 to count
      invariant forall k | 0 <= k < i :: dst[k] == PartBlock(chunk, n, p, first + k)
    {
      Product(i, count - 1, n);
      StridePosition(p, first, i, n);
      dst[i] := src[i * n];
    }
  }

  lemma StridePosition(p: nat, first: nat, i: nat, n: nat)
    ensures p + first * n + i * n == (first + i) * n + p
  {
  }

  /** Each stripe gives one parity block. */
  method ConvertToParity<T>(dst: array<T>, src: array<T>, ghost chunk: nat -> T,
                            code: (seq<T>, nat) -> T, n: nat, q: nat, ghost first: nat, count: nat)
    requires 0 < n && count <= dst.Length && src != dst
    requires src.Length >= count * n
    requires forall i | 0 <= i < count * n :: src[i] == chunk(first * n + i)
    modifies dst
    ensures forall i | 0 <= i < count :: dst[i] == code(Stripe(chunk, n, first + i), q)
  {
    for i := 0 to count
      invariant forall k | 0 <= k < i :: dst[k] == code(Stripe(chunk, n, first + k), q)
    {
      Product(i + 1, count, n);
      NextMultiple(i, n);
      StridePosition(0, first, i, n);
      var stripe := src[i * n..i * n + n];
      assert stripe == Stripe(chunk, n, first + i);
      dst[i] := code(stripe, q);
    }
  }

  // ----- the planner -----------------------------------------------------------------------------

  /** The blocks of the chunk from the first to the last that is in the part. */
  function DataRangeFirst(p: nat, n: nat, first: nat): nat { p + first * n }

  function DataRangeCount(n: nat, count: nat): (r: nat)
    requires 0 < count
    ensures 0 < r
  {
    1 + (count - 1) * n
  }

  /** Blocks of a part can be had: the part can be read, or some slice can be for the blocks
      of the chunk that the part is made from. */
  ghost predicate Obtainable(kind: nat, part: nat, first: nat, count: nat, types: seq<nat>,
                             canRead: (nat, seq<nat>) -> bool)
    requires kind < TYPE_COUNT && part < ExpectedParts(kind) && 0 < count
    requires forall i | 0 <= i < |types| :: types[i] < TYPE_COUNT
  {
    PartKinds(kind, part);
    var n := DataParts(kind);
    canRead(kind, [part])
    || (if IsParityPart(kind, part) then Product(1, count, n); CanReadSome(types, first * n, count * n, canRead)
        else CanReadSome(types, DataRangeFirst(DataIndex(kind, part), n, first), DataRangeCount(n, count), canRead))
  }

  datatype Method = ReadDataPart | RecoverDataPart | RecoverParityPart

  class SliceRecoveryPlanner {
    const chunkPlanner: ChunkReadPlanner
    var kind: nat
    var part: nat
    var firstBlock: nat
    var blockCount: nat
    var isReadingPossible: bool
    var recovery: Method

    constructor ()
      ensures !isReadingPossible && fresh(chunkPlanner)
    {
      chunkPlanner := new ChunkReadPlanner();
      kind, part, firstBlock, blockCount := STANDARD, 0, 0, 0;
      isReadingPossible, recovery := false, ReadDataPart;
    }

    ghost predicate Ready()
      reads this, chunkPlanner
    {
      && isReadingPossible && 0 < blockCount
      && kind < TYPE_COUNT && part < ExpectedParts(kind)
      && var n := DataParts(kind);
         match recovery
         case ReadDataPart => true
         case RecoverDataPart =>
           && !IsParityPart(kind, part) && DataIndex(kind, part) >= 0 && chunkPlanner.Ready()
           && chunkPlanner.chunkFirstBlock == DataRangeFirst(DataIndex(kind, part), n, firstBlock)
           && chunkPlanner.chunkBlockCount == DataRangeCount(n, blockCount)
         case RecoverParityPart =>
           && IsParityPart(kind, part) && chunkPlanner.Ready()
           && chunkPlanner.chunkFirstBlock == firstBlock * n
           && chunkPlanner.chunkBlockCount == blockCount * n
    }

    /** The part itself is read if it can be; otherwise the chunk is, from any slice that
        can be read. */
    method Prepare(kind: nat, part: nat, firstBlock: nat, blockCount: nat, types: seq<nat>,
                   canRead: (nat, seq<nat>) -> bool)
      requires kind < TYPE_COUNT && part < ExpectedParts(kind) && 0 < blockCount
      requires forall i | 0 <= i < |types| :: types[i] < TYPE_COUNT
      modifies this, chunkPlanner
      ensures isReadingPossible ==> Ready()
      ensures this.kind == kind && this.part == part
      ensures this.firstBlock == firstBlock && this.blockCount == blockCount
      ensures isReadingPossible <==> Obtainable(kind, part, firstBlock, blockCount, types, canRead)
      ensures isReadingPossible ==> (recovery == ReadDataPart <==> canRead(kind, [part]))
    {
      this.kind, this.part := kind, part;
      this.firstBlock, this.blockCount := firstBlock, blockCount;
      isReadingPossible := false;
      PartKinds(kind, part);
      var n := DataParts(kind);
      if canRead(kind, [part]) {
        isReadingPossible, recovery := true, ReadDataPart;
      } else if !IsParityPart(kind, part) {
        var first, count := DataRangeFirst(DataIndex(kind, part), n, firstBlock), DataRangeCount(n, blockCount);
        chunkPlanner.Prepare(first, count, types, canRead);
        if chunkPlanner.isReadingPossible {
          isReadingPossible, recovery := true, RecoverDataPart;
        }
      } else {
        var first, count := firstBlock * n, blockCount * n;
        Product(1, blockCount, n);
        chunkPlanner.Prepare(first, count, types, canRead);
        if chunkPlanner.isReadingPossible {
          isReadingPossible, recovery := true, RecoverParityPart;
        }
      }
    }

    /** Re-striping preserves data: from whatever slice the plan reads, it delivers the
        blocks of the part that is recovered. */
    method RecoverPart<T(0)>(chunk: nat -> T, code: (seq<T>, nat) -> T, dst: array<T>)
      requires Ready() && dst.Length == blockCount
      modifies dst
      ensures forall i | 0 <= i < blockCount ::
                dst[i] == StoredBlock(chunk, code, kind, part, firstBlock + i)
    {
      PartKinds(kind, part);
      var n := DataParts(kind);
      match recovery {
        case ReadDataPart =>
          forall i | 0 <= i < blockCount {
            dst[i] := StoredBlock(chunk, code, kind, part, firstBlock + i);
          }
        case RecoverDataPart =>
          var buffer := new T[chunkPlanner.chunkBlockCount];
          chunkPlanner.ReadChunk(chunk, buffer);
          ConvertToPart(dst, buffer, chunk, n, DataIndex(kind, part), firstBlock, blockCount);
        case RecoverParityPart =>
          var buffer := new T[chunkPlanner.chunkBlockCount];
          chunkPlanner.ReadChunk(chunk, buffer);
          ConvertToParity(dst, buffer, chunk, code, n, ParityIndex(kind, part), firstBlock, blockCount);
      }
    }
  }

  // ----- how many blocks ---------------------------------------------------------------------------

  /** The blocks of a part of a chunk. */
  function NumberOfBlocks(kind: nat, part: nat, blocksInChunk: nat): nat
    requires kind < TYPE_COUNT && part < ExpectedParts(kind)
  {
    PartKinds(kind, part);
    var n := DataParts(kind);
    var d := if IsParityPart(kind, part) then 0 else DataIndex(kind, part);
    Ceiling(blocksInChunk, d, n)
  }

  function Ceiling(total: nat, d: nat, n: nat): nat
    requires d < n
  {
    (total + (n - d - 1)) / n
  }

  /** What the number of blocks of one part tells of the number of blocks of its chunk. */
  function Estimate(kind: nat, part: nat, partBlocks: nat): nat
    requires kind < TYPE_COUNT && part < ExpectedParts(kind)
  {
    if IsParityPart(kind, part) || DataIndex(kind, part) == 0
    then Min(BLOCKS_IN_CHUNK, partBlocks * DataParts(kind))
    else Min(BLOCKS_IN_CHUNK, (partBlocks + 1) * DataParts(kind))
  }

  lemma CeilingIff(total: nat, d: nat, n: nat, b: nat)
    requires d < n
    ensures b < (total + (n - d - 1)) / n <==> b * n + d < total
  {
    var x := total + (n - d - 1);
    Recompose(x, n);
    var q := x / n;
    if b < q {
      Product(b + 1, q, n);
      NextMultiple(b, n);
    } else {
      Product(q, b, n);
    }
  }

  /** A part has exactly the blocks that fall into the chunk; a parity part has one for
      every stripe. */
  lemma BlocksOfPart(kind: nat, part: nat, total: nat, b: nat)
    requires kind < TYPE_COUNT && part < ExpectedParts(kind)
    ensures b < NumberOfBlocks(kind, part, total)
       <==> b * DataParts(kind) + (if IsParityPart(kind, part) then 0 else DataIndex(kind, part)) < total
  {
    PartKinds(kind, part);
    CeilingIff(total, if IsParityPart(kind, part) then 0 else DataIndex(kind, part), DataParts(kind), b);
  }

  /** The estimate is never too small, and too large by less than two stripes. */
  lemma EstimateEnough(kind: nat, part: nat, total: nat)
    requires kind < TYPE_COUNT && part < ExpectedParts(kind) && total <= BLOCKS_IN_CHUNK
    ensures total <= Estimate(kind, part, NumberOfBlocks(kind, part, total))
    ensures Estimate(kind, part, NumberOfBlocks(kind, part, total)) < total + 2 * DataParts(kind)
  {
    var n, b := DataParts(kind), NumberOfBlocks(kind, part, total);
    PartKinds(kind, part);
    BlocksOfPart(kind, part, total, b);
    NextMultiple(b, n);
    if b > 0 {
      BlocksOfPart(kind, part, total, b - 1);
      NextMultiple(b - 1, n);
    }
  }

  lemma MoreBlocks(kind: nat, part: nat, fewer: nat, more: nat)
    requires kind < TYPE_COUNT && part < ExpectedParts(kind) && fewer <= more
    ensures NumberOfBlocks(kind, part, fewer) <= NumberOfBlocks(kind, part, more)
  {
    var b := NumberOfBlocks(kind, part, fewer);
    if b > 0 {
      BlocksOfPart(kind, part, fewer, b - 1);
      BlocksOfPart(kind, part, more, b - 1);
    }
  }

  /** However the size of the chunk was learned, at least the blocks that the part really
      has are replicated, and none beyond the end of a chunk. */
  lemma ReplicatesEnough(kind: nat, part: nat, askedKind: nat, askedPart: nat, total: nat)
    requires kind < TYPE_COUNT && part < ExpectedParts(kind)
    requires askedKind < TYPE_COUNT && askedPart < ExpectedParts(askedKind)
    requires total <= BLOCKS_IN_CHUNK
    ensures var guess := Estimate(askedKind, askedPart, NumberOfBlocks(askedKind, askedPart, total));
            NumberOfBlocks(kind, part, total) <= NumberOfBlocks(kind, part, guess)
            <= NumberOfBlocks(kind, part, BLOCKS_IN_CHUNK)
  {
    var guess := Estimate(askedKind, askedPart, NumberOfBlocks(askedKind, askedPart, total));
    EstimateEnough(askedKind, askedPart, total);
    MoreBlocks(kind, part, total, guess);
    MoreBlocks(kind, part, guess, BLOCKS_IN_CHUNK);
  }

  // ----- replication in batches -------------------------------------------------------------------

  /** Whole stripes, at least as many blocks as usual. */
  function BatchSize(n: nat): nat
    requires 0 < n
  {
    n * ((BATCH + n - 1) / n)
  }

  lemma BatchAtLeast(n: nat)
    requires 0 < n
    ensures BATCH <= BatchSize(n) < BATCH + n
  {
  }

  datatype Written<T> = Written(block: nat, data: T)

  /** Every batch from a block on can be had. */
  ghost predicate AllObtainable(kind: nat, part: nat, first: nat, blocks: nat, types: seq<nat>,
                                canRead: (nat, seq<nat>) -> bool)
    requires kind < TYPE_COUNT && part < ExpectedParts(kind)
    requires forall i | 0 <= i < |types| :: types[i] < TYPE_COUNT
    decreases blocks - first
  {
    var batch := BatchSize(DataParts(kind));
    BatchAtLeast(DataParts(kind));
    first < blocks
    ==> Obtainable(kind, part, first, Min(blocks - first, batch), types, canRead)
        && AllObtainable(kind, part, first + batch, blocks, types, canRead)
  }

  /** A file that holds the first blocks of a part. */
  ghost predicate HoldsPart<T>(file: seq<Written<T>>, chunk: nat -> T, code: (seq<T>, nat) -> T, kind: nat, part: nat)
    requires kind < TYPE_COUNT && part < ExpectedParts(kind)
  {
    forall i | 0 <= i < |file| :: file[i] == Written(i, StoredBlock(chunk, code, kind, part, i))
  }

  /** One batch is recovered and written after the blocks that are there. */
  method ReplicateBatch<T(0)>(planner: SliceRecoveryPlanner, chunk: nat -> T, code: (seq<T>, nat) -> T,
                              file: seq<Written<T>>)
    returns (longer: seq<Written<T>>)
    requires planner.Ready() && planner.firstBlock == |file|
    requires planner.kind < TYPE_COUNT && planner.part < ExpectedParts(planner.kind)
    requires HoldsPart(file, chunk, code, planner.kind, planner.part)
    ensures |longer| == |file| + planner.blockCount && HoldsPart(longer, chunk, code, planner.kind, planner.part)
  {
    var buffer := new T[planner.blockCount];
    planner.RecoverPart(chunk, code, buffer);
    longer := file;
    for i := 0 to planner.blockCount
      invariant |longer| == |file| + i && HoldsPart(longer, chunk, code, planner.kind, planner.part)
    {
      longer := longer + [Written(|file| + i, buffer[i])];
    }
  }

  method ReplicateBlocks<T(0)>(chunk: nat -> T, code: (seq<T>, nat) -> T, kind: nat, part: nat, blocks: nat,
                               types: seq<nat>, canRead: (nat, seq<nat>) -> bool)
    returns (ok: bool, file: seq<Written<T>>)
    requires kind < TYPE_COUNT && part < ExpectedParts(kind)
    requires forall i | 0 <= i < |types| :: types[i] < TYPE_COUNT
    ensures (ok ==> |file| == blocks) && HoldsPart(file, chunk, code, kind, part)
    ensures ok <==> AllObtainable(kind, part, 0, blocks, types, canRead)
  {
    var batchSize := BatchSize(DataParts(kind));
    BatchAtLeast(DataParts(kind));
    var planner := new SliceRecoveryPlanner();
    file := [];
    ok := true;
    var firstBlock: int := 0;
    while firstBlock < blocks
      invariant fresh(planner) && fresh(planner.chunkPlanner)
      invariant 0 <= firstBlock && |file| == Min(firstBlock, blocks)
      invariant AllObtainable(kind, part, 0, blocks, types, canRead)
           <==> AllObtainable(kind, part, firstBlock, blocks, types, canRead)
      invariant HoldsPart(file, chunk, code, kind, part)
      decreases blocks - firstBlock
    {
      var nrOfBlocks := Min(blocks - firstBlock, batchSize);
      planner.Prepare(kind, part, firstBlock, nrOfBlocks, types, canRead);
      if !planner.isReadingPossible {
        return false, file;
      }
      file := ReplicateBatch(planner, chunk, code, file);
      firstBlock := firstBlock + batchSize;
    }
  }

  /** A part is written block by block, in batches: every block once, in order, each with
      what the part holds there. It fails exactly if some batch cannot be read. */
  method Replicate<T(0)>(chunk: nat -> T, code: (seq<T>, nat) -> T, kind: nat, part: nat,
                         chunkBlocks: nat, types: seq<nat>, canRead: (nat, seq<nat>) -> bool)
    returns (ok: bool, file: seq<Written<T>>)
    requires kind < TYPE_COUNT && part < ExpectedParts(kind)
    requires forall i | 0 <= i < |types| :: types[i] < TYPE_COUNT
    ensures ok ==> |file| == NumberOfBlocks(kind, part, chunkBlocks)
    ensures HoldsPart(file, chunk, code, kind, part)
    ensures ok <==> AllObtainable(kind, part, 0, NumberOfBlocks(kind, part, chunkBlocks), types, canRead)
  {
    ok, file := ReplicateBlocks(chunk, code, kind, part, NumberOfBlocks(kind, part, chunkBlocks), types, canRead);
  }
}
