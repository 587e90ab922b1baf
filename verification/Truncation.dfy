/** Truncation of a chunk in place. */
module Truncation {
  import opened Common
  import opened Bits
  import opened CrcSpec
  import opened Checksum = Crc
  import opened Division
  import opened ChunkFiles

  // ----- checksums of the new table ----------------------------------------------------------

  /** The checksum of a zero block, put into a range of the table. */
  method FillEmpty(tables: CrcTables, crcs: seq<Word>, first: nat, last: nat) returns (r: seq<Word>)
    requires tables.Valid() && tables.poly == CRC_POLY && |crcs| == BLOCKS_IN_CHUNK && last <= BLOCKS_IN_CHUNK
    ensures |r| == BLOCKS_IN_CHUNK
    ensures forall i | first <= i < last :: r[i] == BlockCrc(Zeros(BLOCK_SIZE))
    ensures forall i | 0 <= i < BLOCKS_IN_CHUNK && !(first <= i < last) :: r[i] == crcs[i]
  {
    var empty := tables.ZeroBlock(0, BLOCK_SIZE);
    r := crcs;
    var i := first;
    while i < last
      invariant first <= i && |r| == BLOCKS_IN_CHUNK && (if first <= last then i <= last else i == first)
      invariant forall k | first <= k < i && k < last :: r[k] == BlockCrc(Zeros(BLOCK_SIZE))
      invariant forall k | 0 <= k < BLOCKS_IN_CHUNK && !(first <= k < i) :: r[k] == crcs[k]
    {
      r := r[i := empty];
      i := i + 1;
    }
  }

  /** The checksum of the block that is cut. */
  method CutCrc(tables: CrcTables, part: seq<Byte>) returns (crc: Word)
    requires tables.Valid() && tables.poly == CRC_POLY && |part| <= BLOCK_SIZE
    ensures crc == BlockCrc(part + Zeros(BLOCK_SIZE - |part|))
  {
    crc := tables.ZeroExpanded(0, part, 0, BLOCK_SIZE - |part|);
  }

  // ----- truncation in place ---------------------------------------------------------------------

  /** The table for a shorter file; the cut block is read back from the file. */
  method ShrinkTable(tables: CrcTables, crcs: seq<Word>, now: seq<Byte>, ghost file: seq<Byte>,
                     oldBlocks: nat, length: nat)
    returns (r: seq<Word>)
    requires tables.Valid() && tables.poly == CRC_POLY
    requires Checked(file, crcs, oldBlocks) && length <= CHUNK_SIZE && BlocksFor(length) <= oldBlocks
    requires length <= |file| && length <= |now| && now[..length] == file[..length]
    ensures |r| == BLOCKS_IN_CHUNK && TableFits(r, crcs, file, oldBlocks, length)
  {
    BlocksForBounds(length);
    var full, rest := length / BLOCK_SIZE, length % BLOCK_SIZE;
    Recompose(length, BLOCK_SIZE);
    r := crcs;
    if rest > 0 {
      var part := now[full * BLOCK_SIZE..full * BLOCK_SIZE + rest];
      assert part == now[..length][full * BLOCK_SIZE..] && part == file[..length][full * BLOCK_SIZE..];
      var crc := CutCrc(tables, part);
      r := FillEmpty(tables, r[full := crc], full + 1, oldBlocks);
    }
  }

  /** On every path the lock is given back, and so is the reference unless closing fails. If every operation succeeds,
      the file is cut or extended to the length and padded to whole blocks, and every block
      has its checksum. */
  method Truncate(tables: CrcTables, chunk: Chunk?, oldVersion: nat, newVersion: nat, length: nat, f: Faults)
    returns (status: Status)
    requires tables.Valid() && tables.poly == CRC_POLY
    requires chunk != null ==> chunk.Valid()
    modifies chunk
    ensures chunk != null
            ==> && chunk.locks == old(chunk.locks)
                && chunk.references == old(chunk.references)
                   + Leaked(Renames(old(chunk.version), oldVersion, length, f) && f.begin == OK, f.end)
    ensures status == OK <==> Truncates(chunk != null, if chunk == null then 0 else old(chunk.version),
                                        if chunk == null then 0 else old(chunk.blocks), oldVersion, length, f)
    ensures chunk != null
            ==> chunk.version == if Renames(old(chunk.version), oldVersion, length, f) then newVersion
                                 else old(chunk.version)
    ensures status == OK
            ==> && chunk != null && chunk.Valid() && chunk.version == newVersion
                && chunk.file == Fitted(old(chunk.file), length) && chunk.blocks == BlocksFor(length)
    ensures status in {WRONGSIZE, NOCHUNK, WRONGVERSION} && f.begin == OK && f.end == OK && chunk != null
            ==> chunk.file == old(chunk.file) && chunk.crcs == old(chunk.crcs)
                && chunk.blocks == old(chunk.blocks)
  {
    if length > CHUNK_SIZE {
      return WRONGSIZE;
    }
    if chunk == null {
      return NOCHUNK;
    }
    chunk.Lock();
    if chunk.version != oldVersion && oldVersion > 0 {
      chunk.Release();
      return WRONGVERSION;
    }
    if f.rename {
      chunk.Release();
      return IO;
    }
    chunk.version := newVersion;
    status := chunk.IOBegin(f.begin);
    if status != OK {
      chunk.Release();
      return;
    }
    if f.overwrite {
      var _ := chunk.IOEnd(f.end);
      chunk.Release();
      return IO;
    }
    status := Resize(tables, chunk, length, f);
    if status != OK {
      var _ := chunk.IOEnd(f.end);
      chunk.Release();
      return;
    }
    status := chunk.IOEnd(f.end);
    chunk.Release();
  }

  /** An unaligned cut within the blocks that are there. */
  predicate CutsBlock(blocks: nat, length: nat) {
    BlocksFor(length) <= blocks && length % BLOCK_SIZE != 0
  }

  /** The file that the second step leaves, whether or not it succeeds. */
  function FileLeft(file: seq<Byte>, blocks: nat, length: nat, f: Faults): seq<Byte> {
    if f.truncate then file
    else if CutsBlock(blocks, length) && f.truncateAgain then Resized(file, length)
    else Fitted(file, length)
  }

  /** The second step of a truncation, on an open chunk. If it fails, the number of blocks and
      the checksums of these blocks are as before; a chunk whose file could not be touched is
      still in order. */
  method Resize(tables: CrcTables, chunk: Chunk, length: nat, f: Faults) returns (status: Status)
    requires tables.Valid() && tables.poly == CRC_POLY && chunk.Valid() && length <= CHUNK_SIZE
    modifies chunk`file, chunk`crcs, chunk`blocks
    ensures status == OK || status == IO
    ensures status == OK <==> Resizes(old(chunk.blocks), length, f)
    ensures chunk.file == FileLeft(old(chunk.file), old(chunk.blocks), length, f)
    ensures status == OK
            ==> chunk.Valid() && chunk.file == Fitted(old(chunk.file), length)
                && chunk.blocks == BlocksFor(length)
    ensures status != OK
            ==> && chunk.blocks == old(chunk.blocks) && |chunk.crcs| == |old(chunk.crcs)|
                && (forall i | 0 <= i < chunk.blocks && i < |chunk.crcs| :: chunk.crcs[i] == old(chunk.crcs)[i])
                && (f.truncate ==> chunk.Valid())
  {
    BlocksForBounds(length);
    var blocks := BlocksFor(length);
    ghost var file := chunk.file;
    ghost var before := chunk.crcs;
    if blocks > chunk.blocks {
      chunk.crcs := FillEmpty(tables, chunk.crcs, chunk.blocks, blocks);
      if f.truncate {
        return IO;
      }
      FittedLonger(file, length);
      chunk.file := Resized(chunk.file, blocks * BLOCK_SIZE);
    } else {
      var rest := length % BLOCK_SIZE;
      if f.truncate {
        return IO;
      }
      if rest > 0 {
        chunk.file := Resized(chunk.file, length);
        if f.truncateAgain {
          return IO;
        }
      } else {
        AlignedFit(file, length);
      }
      chunk.file := Resized(chunk.file, blocks * BLOCK_SIZE);
      if rest > 0 && length / BLOCK_SIZE in f.read {
        return IO;
      }
      chunk.crcs := ShrinkTable(tables, chunk.crcs, chunk.file, file, chunk.blocks, length);
    }
    TableChecks(chunk.crcs, before, file, chunk.blocks, length);
    chunk.blocks := blocks;
    status := OK;
  }

  lemma AlignedFit(file: seq<Byte>, length: nat)
    requires length % BLOCK_SIZE == 0
    ensures Fitted(file, length) == Resized(file, BlocksFor(length) * BLOCK_SIZE)
  {
  }

  predicate Resizes(blocks: nat, length: nat, f: Faults) {
    !f.truncate && (CutsBlock(blocks, length) ==> !f.truncateAgain && length / BLOCK_SIZE !in f.read)
  }

  /** The file gets the name of its new version. */
  predicate Renames(version: nat, oldVersion: nat, length: nat, f: Faults) {
    length <= CHUNK_SIZE && (version == oldVersion || oldVersion == 0) && !f.rename
  }

  predicate Truncates(found: bool, version: nat, blocks: nat, oldVersion: nat, length: nat, f: Faults) {
    && found && Renames(version, oldVersion, length, f)
    && f.begin == OK && !f.overwrite && Resizes(blocks, length, f) && f.end == OK
  }
}
