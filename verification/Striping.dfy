/** Reading and recovering striped chunks. Block `b` of data part `p` of a slice with `n`
    data parts is block `b * n + p` of the chunk. */
module Striping {
  import opened Redundancy
  import opened Division

  // ----- stripes ------------------------------------------------------------------------

  /** A block of a data part. */
  function PartBlock<T>(chunk: nat -> T, n: nat, p: nat, b: nat): T
    requires 0 < n
  {
    chunk(b * n + p)
  }

  /** The stripe position a bounded number of blocks further on. */
  lemma ModStep(x: nat, d: nat, m: nat)
    requires d < m
    ensures (x + d) % m == if x % m + d < m then x % m + d else x % m + d - m
  {
    Recompose(x, m);
    var q, r := x / m, x % m + d;
    if r < m {
      DivMod(q, r, m);
    } else {
      NextMultiple(q, m);
      DivMod(q + 1, r - m, m);
    }
  }

  // ----- which parts are read ---------------------------------------------------------------

  /** Parity of a slice with one parity part comes first, so data parts count from one. */
  function FirstDataPart(kind: nat): nat {
    if IsXor(kind) then 1 else 0
  }

  method Iota(n: nat, first: nat) returns (r: seq<nat>)
    ensures |r| == n && forall i | 0 <= i < n :: r[i] == first + i
  {
    r := [];
    for i := 0 to n
      invariant |r| == i && forall k | 0 <= k < i :: r[k] == first + k
    {
      r := r + [first + i];
    }
  }

  /** How many parts a range of blocks touches. */
  function PartsTouched(m: nat, first: nat, count: nat): nat
    requires 0 < m && 0 < count
  {
    if count >= m then m else count
  }

  /** The first data part that is read. */
  function Start(m: nat, first: nat, count: nat): nat
    requires 0 < m && 0 < count
  {
    if count >= m then 0 else first % m
  }

  /** A number of places further around the stripe. */
  function Around(start: nat, j: nat, m: nat): nat {
    if start + j < m then start + j else start + j - m
  }

  /** The parts to read, in the order in which the plan lays them out: one after the other
      around the stripe, each once. */
  ghost predicate AreRequired(r: seq<nat>, m: nat, offset: nat, first: nat, count: nat)
    requires 0 < m && 0 < count
  {
    && |r| == PartsTouched(m, first, count)
    && forall j | 0 <= j < |r| :: r[j] == Around(Start(m, first, count), j, m) + offset
  }

  method GetRequiredParts(m: nat, firstDataPart: nat, firstBlock: nat, blockCount: nat)
    returns (r: seq<nat>)
    requires 0 < m && 0 < blockCount
    ensures AreRequired(r, m, firstDataPart, firstBlock, blockCount)
  {
    var firstPart, lastPart := firstBlock % m, (firstBlock + blockCount - 1) % m;
    if blockCount >= m {
      r := Iota(m, firstDataPart);
      return;
    }
    ModStep(firstBlock, blockCount - 1, m);
    if firstPart <= lastPart {
      r := Iota(lastPart - firstPart + 1, firstPart + firstDataPart);
      return;
    }
    var r1 := Iota(m - firstPart, firstPart + firstDataPart);
    var r2 := Iota(lastPart + 1, firstDataPart);
    r := r1 + r2;
  }

  // ----- the plan -------------------------------------------------------------------------------

  /** What a slice read plan delivers: the requested parts one after the other, the same
      blocks of each. */
  function ReadBuffer<T>(chunk: nat -> T, m: nat, offset: nat, parts: seq<nat>, first: nat, count: nat)
    : (r: seq<T>)
    requires 0 < m && forall j | 0 <= j < |parts| :: offset <= parts[j]
    ensures |r| == |parts| * count
  {
    seq(|parts| * count,
        i requires 0 <= i < |parts| * count
          => (PositionInBuffer(i, |parts|, count);
              PartBlock(chunk, m, parts[i / count] - offset, first + i % count)))
  }

  lemma PositionInBuffer(i: nat, parts: nat, count: nat)
    requires i < parts * count
    ensures count > 0 && i / count < parts
  {
  }

  lemma InBuffer(part: nat, block: nat, parts: nat, count: nat)
    requires part < parts && block < count
    ensures part * count + block < parts * count
    ensures (part * count + block) / count == part
    ensures (part * count + block) % count == block
  {
    DivMod(part, block, count);
    Product(part + 1, parts, count);
    NextMultiple(part, count);
  }

  lemma BufferAt<T>(chunk: nat -> T, m: nat, offset: nat, parts: seq<nat>, first: nat, count: nat,
                    part: nat, block: nat)
    requires 0 < m && (forall j | 0 <= j < |parts| :: offset <= parts[j])
    requires part < |parts| && block < count
    ensures part * count + block < |parts| * count
    ensures ReadBuffer(chunk, m, offset, parts, first, count)[part * count + block]
         == PartBlock(chunk, m, parts[part] - offset, first + block)
  {
    InBuffer(part, block, |parts|, count);
  }

  function PartFirst(m: nat, first: nat): nat
    requires 0 < m
  {
    first / m
  }

  function PartCount(m: nat, first: nat, count: nat): int
    requires 0 < m && 0 < count
  {
    (first + count - 1) / m - first / m + 1
  }

  lemma AtLeastOne(m: nat, first: nat, count: nat)
    requires 0 < m && 0 < count
    ensures 0 < PartCount(m, first, count)
  {
    DivMonotone(first, first + count - 1, m);
  }

  /** The block of the part, and the place of the part among those read, in which the
      converter looks for a block of the chunk. */
  function SourceBlock(m: nat, first: nat, i: nat): int
    requires 0 < m
  {
    (first + i) / m - first / m
  }

  function SourcePart(m: nat, start: nat, first: nat, i: nat): int
    requires 0 < m
  {
    var part := (first + i) % m - start;
    if part < 0 then part + m else part
  }

  lemma BlockInRange(m: nat, first: nat, count: nat, i: nat)
    requires 0 < m && i < count
    ensures 0 <= SourceBlock(m, first, i) < PartCount(m, first, count)
  {
    DivMonotone(first, first + i, m);
    DivMonotone(first + i, first + count - 1, m);
  }

  lemma PartPlace(m: nat, start: nat, lane: nat, at: int)
    requires start < m && lane < m && at == if lane - start < 0 then lane - start + m else lane - start
    ensures 0 <= at < m && Around(start, at, m) == lane
  {
  }

  lemma PartInRange(m: nat, first: nat, count: nat, i: nat)
    requires 0 < m && i < count
    ensures var at := SourcePart(m, Start(m, first, count), first, i);
            && 0 <= at < PartsTouched(m, first, count)
            && Around(Start(m, first, count), at, m) == (first + i) % m
  {
    var start, lane := Start(m, first, count), (first + i) % m;
    PartPlace(m, start, lane, SourcePart(m, start, first, i));
    if count < m {
      ModStep(first, i, m);
    }
  }

  lemma Home<T>(chunk: nat -> T, m: nat, x: nat)
    requires 0 < m
    ensures PartBlock(chunk, m, x % m, x / m) == chunk(x)
  {
  }

  /** The converter's index is in the buffer, and the right block is there. */
  lemma BlockFound<T>(chunk: nat -> T, m: nat, offset: nat, parts: seq<nat>, first: nat, count: nat,
                      i: nat, part: int, block: int, n: int)
    requires 0 < m && i < count && AreRequired(parts, m, offset, first, count)
    requires part == SourcePart(m, Start(m, first, count), first, i)
    requires block == SourceBlock(m, first, i) && n == PartCount(m, first, count)
    ensures 0 < n && 0 <= part < |parts| && 0 <= block < n
    ensures part * n + block < |parts| * n
    ensures ReadBuffer(chunk, m, offset, parts, PartFirst(m, first), n)[part * n + block]
         == chunk(first + i)
  {
    BlockInRange(m, first, count, i);
    PartInRange(m, first, count, i);
    BufferAt(chunk, m, offset, parts, PartFirst(m, first), n, part, block);
    Home(chunk, m, first + i);
  }

  /** Copies blocks from the parts into the order of the chunk. */
  method ConvertToChunk<T>(dst: array<T>, src: seq<T>, ghost chunk: nat -> T, m: nat, ghost offset: nat,
                           ghost parts: seq<nat>, first: nat, count: nat, partFirst: nat,
                           partCount: nat, firstRequiredPart: nat)
    requires 0 < m && 0 < count <= dst.Length && AreRequired(parts, m, offset, first, count)
    requires partFirst == PartFirst(m, first) && partCount == PartCount(m, first, count)
    requires firstRequiredPart == Start(m, first, count)
    requires src == ReadBuffer(chunk, m, offset, parts, partFirst, partCount)
    modifies dst
    ensures forall i | 0 <= i < count :: dst[i] == chunk(first + i)
    ensures forall i | count <= i < dst.Length :: dst[i] == old(dst[i])
  {
    for i := 0 to count
      invariant forall k | 0 <= k < i :: dst[k] == chunk(first + k)
      invariant forall k | i <= k < dst.Length :: dst[k] == old(dst[k])
    {
      var value := FetchBlock(src, chunk, m, offset, parts, first, count, partFirst, partCount,
                              firstRequiredPart, i);
      dst[i] := value;
    }
  }

  /** One block of the chunk, looked up in the buffer of parts. */
  method FetchBlock<T>(src: seq<T>, ghost chunk: nat -> T, m: nat, ghost offset: nat,
                       ghost parts: seq<nat>, first: nat, ghost count: nat, partFirst: nat,
                       partCount: nat, firstRequiredPart: nat, i: nat) returns (value: T)
    requires 0 < m && i < count && AreRequired(parts, m, offset, first, count)
    requires partFirst == PartFirst(m, first) && partCount == PartCount(m, first, count)
    requires firstRequiredPart == Start(m, first, count)
    requires src == ReadBuffer(chunk, m, offset, parts, partFirst, partCount)
    ensures value == chunk(first + i)
  {
    var block := (first + i) / m - partFirst;
    var part := (first + i) % m - firstRequiredPart;
    if part < 0 {
      part := part + m;
    }
    BlockFound(chunk, m, offset, parts, first, count, i, part, block, partCount);
    value := src[part * partCount + block];
  }

  // ----- reading a chunk ---------------------------------------------------------------------------

  class ChunkReadPlanner {
    var readFromType: nat
    var readParts: seq<nat>
    var partFirstBlock: nat
    var partBlockCount: nat
    var chunkFirstBlock: nat
    var chunkBlockCount: nat
    var isReadingPossible: bool

    constructor ()
      ensures !isReadingPossible
    {
      readFromType, readParts := STANDARD, [];
      partFirstBlock, partBlockCount := 0, 0;
      chunkFirstBlock, chunkBlockCount := 0, 0;
      isReadingPossible := false;
    }

    /** What a successful preparation leaves behind. */
    ghost predicate Ready()
      reads this
    {
      && isReadingPossible
      && readFromType < TYPE_COUNT && 0 < chunkBlockCount
      && var m := DataParts(readFromType);
         && AreRequired(readParts, m, FirstDataPart(readFromType), chunkFirstBlock, chunkBlockCount)
         && partFirstBlock == PartFirst(m, chunkFirstBlock)
         && partBlockCount == PartCount(m, chunkFirstBlock, chunkBlockCount)
    }

    /** The fields for reading from a type. */
    method Select(kind: nat, m: nat, firstBlock: nat, blockCount: nat)
      requires kind < TYPE_COUNT && m == DataParts(kind) && 0 < blockCount
      requires AreRequired(readParts, m, FirstDataPart(kind), firstBlock, blockCount)
      modifies `readFromType, `partFirstBlock, `partBlockCount, `chunkFirstBlock, `chunkBlockCount, `isReadingPossible
      ensures Ready() && readFromType == kind && chunkFirstBlock == firstBlock && chunkBlockCount == blockCount
    {
      readFromType := kind;
      AtLeastOne(m, firstBlock, blockCount);
      partFirstBlock := firstBlock / m;
      partBlockCount := (firstBlock + blockCount - 1) / m - partFirstBlock + 1;
      chunkFirstBlock, chunkBlockCount := firstBlock, blockCount;
      isReadingPossible := true;
    }

    /** The first type that can be read is taken. */
    method Prepare(firstBlock: nat, blockCount: nat, types: seq<nat>, canRead: (nat, seq<nat>) -> bool)
      requires 0 < blockCount && forall i | 0 <= i < |types| :: types[i] < TYPE_COUNT
      modifies this
      ensures isReadingPossible
              ==> Ready() && chunkFirstBlock == firstBlock && chunkBlockCount == blockCount
                  && readFromType in types && canRead(readFromType, readParts)
      ensures isReadingPossible
         <==> CanReadSome(types, firstBlock, blockCount, canRead)
    {
      isReadingPossible := false;
      for i := 0 to |types|
        invariant !isReadingPossible
        invariant forall k | 0 <= k < i :: !CanReadType(types[k], firstBlock, blockCount, canRead)
      {
        var m := DataParts(types[i]);
        readParts := GetRequiredParts(m, FirstDataPart(types[i]), firstBlock, blockCount);
        SameRequired(readParts, types[i], firstBlock, blockCount, canRead);
        if canRead(types[i], readParts) {
          Select(types[i], m, firstBlock, blockCount);
          return;
        }
      }
    }

    /** The plan that is built reads exactly the blocks asked for, whatever the slice. */
    method ReadChunk<T>(chunk: nat -> T, buffer: array<T>)
      requires Ready() && chunkBlockCount <= buffer.Length
      modifies buffer
      ensures forall i | 0 <= i < chunkBlockCount :: buffer[i] == chunk(chunkFirstBlock + i)
      ensures forall i | chunkBlockCount <= i < buffer.Length :: buffer[i] == old(buffer[i])
    {
      var m, offset := DataParts(readFromType), FirstDataPart(readFromType);
      var parts := ReadBuffer(chunk, m, offset, readParts, partFirstBlock, partBlockCount);
      if readFromType == STANDARD {
        StandardBuffer(chunk, readParts, chunkFirstBlock, chunkBlockCount);
        forall i | 0 <= i < chunkBlockCount {
          buffer[i] := parts[i];
        }
      } else {
        var firstRequiredPart := if IsXor(readFromType) then readParts[0] - 1 else readParts[0];
        ConvertToChunk(buffer, parts, chunk, m, offset, readParts, chunkFirstBlock, chunkBlockCount,
                       partFirstBlock, partBlockCount, firstRequiredPart);
      }
    }
  }

  /** The parts that a range of blocks requires of a slice type can be read. */
  ghost predicate CanReadType(kind: nat, first: nat, count: nat, canRead: (nat, seq<nat>) -> bool)
    requires kind < TYPE_COUNT && 0 < count
  {
    exists r :: AreRequired(r, DataParts(kind), FirstDataPart(kind), first, count) && canRead(kind, r)
  }

  ghost predicate CanReadSome(types: seq<nat>, first: nat, count: nat, canRead: (nat, seq<nat>) -> bool)
    requires 0 < count && forall i | 0 <= i < |types| :: types[i] < TYPE_COUNT
  {
    exists i | 0 <= i < |types| :: CanReadType(types[i], first, count, canRead)
  }

  lemma SameRequired(r: seq<nat>, kind: nat, first: nat, count: nat, canRead: (nat, seq<nat>) -> bool)
    requires kind < TYPE_COUNT && 0 < count
    requires AreRequired(r, DataParts(kind), FirstDataPart(kind), first, count)
    ensures CanReadType(kind, first, count, canRead) <==> canRead(kind, r)
  {
    forall q | AreRequired(q, DataParts(kind), FirstDataPart(kind), first, count)
      ensures q == r
    {
    }
  }

  lemma StandardBuffer<T>(chunk: nat -> T, r: seq<nat>, first: nat, count: nat)
    requires 0 < count && AreRequired(r, 1, 0, first, count)
    ensures PartFirst(1, first) == first && PartCount(1, first, count) == count
    ensures var b := ReadBuffer(chunk, 1, 0, r, first, count);
            |b| == count && forall i | 0 <= i < count :: b[i] == chunk(first + i)
  {
  }
}
