/** Truncating a chunk, and duplicating it with truncation: the data file, the checksums of
    its blocks, and the locks and references that have to be given back on every path. */
module ChunkFiles {
  import opened Common
  import opened Bits
  import opened CrcSpec
  import opened Checksum = Crc
  import opened Division

  type Status = nat
  const OK: Status := 0
  const NOCHUNK: Status := 13
  const WRONGVERSION: Status := 19
  const CHUNKEXIST: Status := 20
  const NOSPACE: Status := 21
  const IO: Status := 22
  const WRONGSIZE: Status := 24

  /** Cut, or extended with zeros. */
  function Resized(s: seq<Byte>, n: nat): (r: seq<Byte>)
    ensures |r| == n
  {
    if n <= |s| then s[..n] else s + Zeros(n - |s|)
  }

  function BlocksFor(length: nat): nat {
    (length + BLOCK_SIZE - 1) / BLOCK_SIZE
  }

  /** Cut or extended to a length, and padded to whole blocks. */
  function Fitted(s: seq<Byte>, length: nat): seq<Byte> {
    Resized(Resized(s, length), BlocksFor(length) * BLOCK_SIZE)
  }

  function BlockOf(file: seq<Byte>, i: nat): seq<Byte>
    requires (i + 1) * BLOCK_SIZE <= |file|
  {
    file[i * BLOCK_SIZE..(i + 1) * BLOCK_SIZE]
  }

  function BlockCrc(block: seq<Byte>): Word {
    CrcSpec.Crc(CRC_POLY, 0, block)
  }

  /** Every block has its checksum in the table. */
  ghost predicate Checked(file: seq<Byte>, crcs: seq<Word>, blocks: nat) {
    && |file| == blocks * BLOCK_SIZE && blocks <= |crcs| == BLOCKS_IN_CHUNK
    && forall i | 0 <= i < blocks :: crcs[i] == BlockCrc(BlockOf(file, i))
  }

  /** Which operations fail. An unaligned cut truncates twice. */
  datatype Faults = Faults(
    rename: bool, begin: Status, overwrite: bool, beginCopy: Status,
    read: set<nat>, write: set<nat>, truncate: bool, truncateAgain: bool, header: bool,
    end: Status, endCopy: Status)

  class Chunk {
    var version: nat
    var blocks: nat
    var file: seq<Byte>
    var crcs: seq<Word>
    var locks: int          // taken and not yet given back
    var references: int
    var registered: bool

    ghost predicate Valid()
      reads this
    {
      Checked(file, crcs, blocks)
    }

    /** A chunk that has just been created: registered, locked and empty. */
    constructor (version: nat)
      ensures this.version == version && registered && locks == 1 && references == 0
      ensures blocks == 0 && file == [] && |crcs| == BLOCKS_IN_CHUNK
    {
      this.version, blocks, file := version, 0, [];
      crcs := seq(BLOCKS_IN_CHUNK, _ => 0);
      locks, references, registered := 1, 0, true;
    }

    method Lock()
      modifies `locks
      ensures locks == old(locks) + 1
    {
      locks := locks + 1;
    }

    method Release()
      modifies `locks
      ensures locks == old(locks) - 1
    {
      locks := locks - 1;
    }

    method IOBegin(status: Status) returns (r: Status)
      modifies `references
      ensures r == status && references == old(references) + (if status == OK then 1 else 0)
    {
      r := status;
      if status == OK {
        references := references + 1;
      }
    }

    /** The reference is given back only if the checksums could be written. */
    method IOEnd(status: Status) returns (r: Status)
      modifies `references
      ensures r == status && references == old(references) - (if status == OK then 1 else 0)
    {
      r := status;
      if status == OK {
        references := references - 1;
      }
    }

    method Unregister()
      modifies `registered, `locks
      ensures !registered && locks == old(locks) - 1
    {
      registered := false;
      locks := locks - 1;
    }
  }

  /** The references that an open chunk is left with, when closing it has a status. */
  function Leaked(isOpen: bool, status: Status): nat {
    if isOpen && status != OK then 1 else 0
  }

  // ----- blocks ------------------------------------------------------------------------------

  lemma BlocksForBounds(length: nat)
    ensures length <= BlocksFor(length) * BLOCK_SIZE < length + BLOCK_SIZE
    ensures length % BLOCK_SIZE == 0 ==> BlocksFor(length) == length / BLOCK_SIZE
    ensures length % BLOCK_SIZE != 0 ==> BlocksFor(length) == length / BLOCK_SIZE + 1
    ensures length <= CHUNK_SIZE ==> BlocksFor(length) <= BLOCKS_IN_CHUNK
  {
  }

  /** Blocks that lie before the cut are the same. */
  lemma SameBlock(a: seq<Byte>, b: seq<Byte>, i: nat, n: nat)
    requires (i + 1) * BLOCK_SIZE <= n <= |a| && n <= |b| && a[..n] == b[..n]
    ensures BlockOf(a, i) == BlockOf(b, i)
  {
    assert BlockOf(a, i) == a[..n][i * BLOCK_SIZE..(i + 1) * BLOCK_SIZE];
    assert BlockOf(b, i) == b[..n][i * BLOCK_SIZE..(i + 1) * BLOCK_SIZE];
  }

  /** Blocks that lie after the end are zero. */
  lemma ZeroBlockOf(s: seq<Byte>, n: nat, i: nat)
    requires |s| <= i * BLOCK_SIZE && (i + 1) * BLOCK_SIZE <= n
    ensures BlockOf(Resized(s, n), i) == Zeros(BLOCK_SIZE)
  {
  }

  /** The block that holds the cut. */
  lemma CutBlock(s: seq<Byte>, length: nat)
    requires length % BLOCK_SIZE != 0 && BlocksFor(length) * BLOCK_SIZE <= |s|
    ensures var i, rest := length / BLOCK_SIZE, length % BLOCK_SIZE;
            && BlocksFor(length) == i + 1 && |Fitted(s, length)| == (i + 1) * BLOCK_SIZE
            && BlockOf(Fitted(s, length), i) == s[i * BLOCK_SIZE..i * BLOCK_SIZE + rest] + Zeros(BLOCK_SIZE - rest)
  {
    BlocksForBounds(length);
    var i, rest := length / BLOCK_SIZE, length % BLOCK_SIZE;
    Recompose(length, BLOCK_SIZE);
    assert Fitted(s, length) == s[..length] + Zeros(BLOCK_SIZE - rest);
  }

  /** What the table has to hold after a change of length: the old checksums before the cut,
      one for the cut block, those of zero blocks after the old end. */
  ghost predicate TableFits(crcs: seq<Word>, before: seq<Word>, file: seq<Byte>, oldBlocks: nat, length: nat)
    requires |file| == oldBlocks * BLOCK_SIZE && |crcs| == |before| == BLOCKS_IN_CHUNK
    requires oldBlocks <= BLOCKS_IN_CHUNK && BlocksFor(length) <= BLOCKS_IN_CHUNK
  {
    var blocks := BlocksFor(length);
    && (forall i | 0 <= i < blocks && i < oldBlocks && (i + 1) * BLOCK_SIZE <= length :: crcs[i] == before[i])
    && (forall i | oldBlocks <= i < blocks :: crcs[i] == BlockCrc(Zeros(BLOCK_SIZE)))
    && (length % BLOCK_SIZE != 0 && blocks <= oldBlocks
        ==> var i, rest := length / BLOCK_SIZE, length % BLOCK_SIZE;
            i < BLOCKS_IN_CHUNK && i * BLOCK_SIZE + rest <= |file|
            && crcs[i] == BlockCrc(file[i * BLOCK_SIZE..i * BLOCK_SIZE + rest] + Zeros(BLOCK_SIZE - rest)))
  }

  lemma FittedSize(s: seq<Byte>, length: nat)
    ensures |Fitted(s, length)| == BlocksFor(length) * BLOCK_SIZE
  {
  }

  lemma FittedBlock(s: seq<Byte>, oldBlocks: nat, length: nat, i: nat)
    requires |s| == oldBlocks * BLOCK_SIZE && i < BlocksFor(length)
    ensures (i + 1) * BLOCK_SIZE <= |Fitted(s, length)|
    ensures i < oldBlocks && (i + 1) * BLOCK_SIZE <= length
            ==> BlockOf(Fitted(s, length), i) == BlockOf(s, i)
    ensures oldBlocks <= i ==> BlockOf(Fitted(s, length), i) == Zeros(BLOCK_SIZE)
  {
    FittedSize(s, length);
    BlocksForBounds(length);
    var f := Fitted(s, length);
    if i < oldBlocks && (i + 1) * BLOCK_SIZE <= length {
      var n := (i + 1) * BLOCK_SIZE;
      assert f[..n] == s[..n];
      SameBlock(f, s, i, n);
    } else if oldBlocks <= i {
      assert length > oldBlocks * BLOCK_SIZE;
      FittedLonger(s, length);
      ZeroBlockOf(s, BlocksFor(length) * BLOCK_SIZE, i);
    }
  }

  lemma FittedLonger(s: seq<Byte>, length: nat)
    requires |s| < length
    ensures Fitted(s, length) == Resized(s, BlocksFor(length) * BLOCK_SIZE)
  {
    BlocksForBounds(length);
  }

  /** A table that fits belongs to the file of the new length. */
  lemma TableChecks(crcs: seq<Word>, before: seq<Word>, file: seq<Byte>, oldBlocks: nat, length: nat)
    requires Checked(file, before, oldBlocks) && |crcs| == BLOCKS_IN_CHUNK && length <= CHUNK_SIZE
    requires BlocksFor(length) <= BLOCKS_IN_CHUNK && TableFits(crcs, before, file, oldBlocks, length)
    ensures Checked(Fitted(file, length), crcs, BlocksFor(length))
  {
    FittedSize(file, length);
    BlocksForBounds(length);
    forall i | 0 <= i < BlocksFor(length)
      ensures crcs[i] == BlockCrc(BlockOf(Fitted(file, length), i))
    {
      FittedBlock(file, oldBlocks, length, i);
      if i < oldBlocks && (i + 1) * BLOCK_SIZE > length {
        Recompose(length, BLOCK_SIZE);
        CutBlock(file, length);
      }
    }
  }
}
