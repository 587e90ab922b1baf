/** Duplication of a chunk with truncation of the copy. */
module Duplication {
  import opened Common
  import opened Bits
  import opened CrcSpec
  import opened Checksum = Crc
  import opened Division
  import opened ChunkFiles
  import opened Truncation

  // ----- when it succeeds ------------------------------------------------------------------------

  predicate NoneBelow(faults: set<nat>, n: nat) {
    forall i | i in faults :: i >= n
  }

  /** Both versions agree, or the file can be renamed; and it can be opened. */
  predicate Opens(chunkVersion: nat, newVersion: nat, f: Faults) {
    (chunkVersion == newVersion || !f.rename) && f.begin == OK
  }

  /** If the versions differ, the header can be overwritten. */
  predicate VersionChanges(chunkVersion: nat, newVersion: nat, f: Faults) {
    Opens(chunkVersion, newVersion, f) && (chunkVersion == newVersion || !f.overwrite)
  }

  predicate Copies(blocks: nat, length: nat, f: Faults) {
    && NoneBelow(f.read, Min(BlocksFor(length), blocks))
    && NoneBelow(f.write, Min(BlocksFor(length), blocks))
    && (BlocksFor(length) > blocks ==> !f.truncate)
  }

  /** The request is accepted and the copy is created. */
  predicate Reaches(version: nat, chunkVersion: nat, length: nat, diskFound: bool, copyExists: bool) {
    length <= CHUNK_SIZE && (version == chunkVersion || chunkVersion == 0) && diskFound && !copyExists
  }

  predicate Duplicates(found: bool, version: nat, blocks: nat, chunkVersion: nat, newVersion: nat,
                       length: nat, diskFound: bool, copyExists: bool, f: Faults)
  {
    && found && Reaches(version, chunkVersion, length, diskFound, copyExists)
    && VersionChanges(chunkVersion, newVersion, f)
    && f.beginCopy == OK && Copies(blocks, length, f) && !f.header && f.end == OK && f.endCopy == OK
  }

  // ----- copying blocks ----------------------------------------------------------------------------

  /** A block is read into the buffer. */
  method ReadBlock(source: Chunk, buffer: array<Byte>, block: nat, f: Faults) returns (ok: bool)
    requires buffer.Length == BLOCK_SIZE && (block + 1) * BLOCK_SIZE <= |source.file|
    modifies buffer
    ensures ok <==> block !in f.read
    ensures ok ==> buffer[..] == BlockOf(source.file, block)
  {
    if block in f.read {
      return false;
    }
    forall i | 0 <= i < BLOCK_SIZE {
      buffer[i] := source.file[block * BLOCK_SIZE + i];
    }
    assert buffer[..] == BlockOf(source.file, block);
    ok := true;
  }

  /** The buffer is appended to the file of the copy. */
  method WriteBlock(copy: Chunk, buffer: array<Byte>, block: nat, f: Faults) returns (ok: bool)
    modifies copy`file
    ensures ok <==> block !in f.write
    ensures copy.file == if ok then old(copy.file) + buffer[..] else old(copy.file)
  {
    if block in f.write {
      return false;
    }
    copy.file := copy.file + buffer[..];
    ok := true;
  }

  lemma NextBlock(file: seq<Byte>, block: nat)
    requires (block + 1) * BLOCK_SIZE <= |file|
    ensures file[..block * BLOCK_SIZE] + BlockOf(file, block) == file[..(block + 1) * BLOCK_SIZE]
  {
  }

  /** The first blocks are copied as they are. */
  method CopyBlocks(source: Chunk, copy: Chunk, buffer: array<Byte>, count: nat, f: Faults) returns (ok: bool)
    requires source != copy && buffer.Length == BLOCK_SIZE && count * BLOCK_SIZE <= |source.file| && copy.file == []
    modifies copy`file, buffer
    ensures ok <==> NoneBelow(f.read, count) && NoneBelow(f.write, count)
    ensures ok ==> copy.file == source.file[..count * BLOCK_SIZE]
  {
    for block := 0 to count
      invariant copy.file == source.file[..block * BLOCK_SIZE]
      invariant NoneBelow(f.read, block) && NoneBelow(f.write, block)
    {
      assert (block + 1) * BLOCK_SIZE <= count * BLOCK_SIZE;
      ok := ReadBlock(source, buffer, block, f);
      if !ok {
        return;
      }
      ok := WriteBlock(copy, buffer, block, f);
      if !ok {
        return;
      }
      NextBlock(source.file, block);
    }
    ok := true;
  }

  /** The block with the cut is copied with its end set to zero, and its checksum is put into
      the table. */
  method CopyCutBlock(tables: CrcTables, source: Chunk, copy: Chunk, buffer: array<Byte>, crcs: seq<Word>,
                      length: nat, f: Faults)
    returns (ok: bool, r: seq<Word>)
    requires tables.Valid() && tables.poly == CRC_POLY && source != copy && buffer.Length == BLOCK_SIZE
    requires length % BLOCK_SIZE != 0 && BlocksFor(length) * BLOCK_SIZE <= |source.file| && |crcs| == BLOCKS_IN_CHUNK
    requires length <= CHUNK_SIZE && copy.file == source.file[..length / BLOCK_SIZE * BLOCK_SIZE]
    modifies copy`file, buffer
    ensures ok <==> length / BLOCK_SIZE !in f.read && length / BLOCK_SIZE !in f.write
    ensures ok ==> copy.file == Fitted(source.file, length)
    ensures ok ==> length / BLOCK_SIZE < BLOCKS_IN_CHUNK && BlocksFor(length) == length / BLOCK_SIZE + 1
                   && var k := length / BLOCK_SIZE;
                      r == crcs[k := BlockCrc(BlockOf(Fitted(source.file, length), k))]
  {
    r := crcs;
    CutBlock(source.file, length);
    BlocksForBounds(length);
    var block, rest := length / BLOCK_SIZE, length % BLOCK_SIZE;
    ok := ReadBlock(source, buffer, block, f);
    if !ok {
      return;
    }
    assert buffer[..rest] == source.file[block * BLOCK_SIZE..block * BLOCK_SIZE + rest];
    var crc := CutCrc(tables, buffer[..rest]);
    r := r[block := crc];
    ghost var part := buffer[..rest];
    forall i | rest <= i < BLOCK_SIZE {
      buffer[i] := 0;
    }
    assert buffer[..] == part + Zeros(BLOCK_SIZE - rest);
    ok := WriteBlock(copy, buffer, block, f);
    if ok {
      Appended(source.file, length);
    }
  }

  lemma Appended(s: seq<Byte>, length: nat)
    requires length % BLOCK_SIZE != 0 && BlocksFor(length) * BLOCK_SIZE <= |s|
    ensures |Fitted(s, length)| == (length / BLOCK_SIZE + 1) * BLOCK_SIZE
    ensures s[..length / BLOCK_SIZE * BLOCK_SIZE] + BlockOf(Fitted(s, length), length / BLOCK_SIZE) == Fitted(s, length)
  {
  }

  /** The data of the copy and the table for its header. */
  method CopyData(tables: CrcTables, source: Chunk, copy: Chunk, length: nat, f: Faults)
    returns (ok: bool, crcs: seq<Word>)
    requires tables.Valid() && tables.poly == CRC_POLY && source != copy && source.Valid()
    requires length <= CHUNK_SIZE && copy.file == []
    modifies copy`file
    ensures ok <==> Copies(source.blocks, length, f)
    ensures ok ==> copy.file == Fitted(source.file, length)
    ensures ok ==> Checked(Fitted(source.file, length), crcs, BlocksFor(length))
  {
    BlocksForBounds(length);
    var blocks := BlocksFor(length);
    var buffer := new Byte[BLOCK_SIZE];
    crcs := source.crcs;
    if blocks > source.blocks {
      ok := CopyBlocks(source, copy, buffer, source.blocks, f);
      if !ok {
        return;
      }
      assert source.file[..source.blocks * BLOCK_SIZE] == source.file;
      crcs := FillEmpty(tables, crcs, source.blocks, blocks);
      if f.truncate {
        ok := false;
        return;
      }
      FittedLonger(source.file, length);
      copy.file := Resized(copy.file, blocks * BLOCK_SIZE);
    } else if length % BLOCK_SIZE == 0 {
      ok := CopyBlocks(source, copy, buffer, blocks, f);
      if !ok {
        return;
      }
      AlignedFit(source.file, length);
    } else {
      ok, crcs := CopyCut(tables, source, copy, buffer, length, f);
      if !ok {
        return;
      }
    }
    TableChecks(crcs, source.crcs, source.file, source.blocks, length);
  }

  method CopyCut(tables: CrcTables, source: Chunk, copy: Chunk, buffer: array<Byte>, length: nat, f: Faults)
    returns (ok: bool, crcs: seq<Word>)
    requires tables.Valid() && tables.poly == CRC_POLY && source != copy && source.Valid()
    requires length <= CHUNK_SIZE && copy.file == [] && buffer.Length == BLOCK_SIZE
    requires length % BLOCK_SIZE != 0 && BlocksFor(length) <= source.blocks
    modifies copy`file, buffer
    ensures ok <==> NoneBelow(f.read, BlocksFor(length)) && NoneBelow(f.write, BlocksFor(length))
    ensures ok ==> copy.file == Fitted(source.file, length)
    ensures ok ==> |crcs| == BLOCKS_IN_CHUNK && BlocksFor(length) <= BLOCKS_IN_CHUNK
                   && TableFits(crcs, source.crcs, source.file, source.blocks, length)
  {
    BlocksForBounds(length);
    CutBlock(source.file, length);
    var last := length / BLOCK_SIZE;
    crcs := source.crcs;
    ok := CopyBlocks(source, copy, buffer, last, f);
    if !ok {
      return;
    }
    ok, crcs := CopyCutBlock(tables, source, copy, buffer, crcs, length, f);
  }

  // ----- the operation ----------------------------------------------------------------------------

  /** The copy is given up: its reference is ended if it has one, and it is unregistered. */
  method Discard(copy: Chunk, isOpen: bool, f: Faults)
    modifies copy`references, copy`registered, copy`locks, copy`file
    ensures !copy.registered && copy.locks == old(copy.locks) - 1
    ensures copy.references == old(copy.references) - (if isOpen && f.endCopy == OK then 1 else 0)
  {
    if isOpen {
      var _ := copy.IOEnd(f.endCopy);
      copy.file := [];
    }
    copy.Unregister();
  }

  /** The source is opened, under its new version if it gets one. */
  method OpenSource(source: Chunk, chunkVersion: nat, newVersion: nat, f: Faults) returns (status: Status)
    modifies source`version, source`references
    ensures status == OK <==> VersionChanges(chunkVersion, newVersion, f)
    ensures source.references == old(source.references)
            + (if status == OK then 1 else Leaked(Opens(chunkVersion, newVersion, f), f.end))
    ensures source.version == if chunkVersion != newVersion && !f.rename then newVersion
                              else old(source.version)
  {
    if newVersion != chunkVersion {
      if f.rename {
        return IO;
      }
      source.version := newVersion;
      status := source.IOBegin(f.begin);
      if status != OK {
        return;
      }
      if f.overwrite {
        var _ := source.IOEnd(f.end);
        return IO;
      }
    } else {
      status := source.IOBegin(f.begin);
    }
  }

  /** Both chunks are open: the data and the header of the copy are written and both are
      closed. */
  method FillCopy(tables: CrcTables, source: Chunk, copy: Chunk, length: nat, f: Faults)
    returns (status: Status)
    requires tables.Valid() && tables.poly == CRC_POLY && source != copy && source.Valid()
    requires length <= CHUNK_SIZE && copy.file == [] && copy.registered
    modifies copy, source`references
    ensures source.references == old(source.references) - 1 + Leaked(true, f.end)
    ensures copy.references == old(copy.references) - 1 + Leaked(true, f.endCopy)
    ensures status == OK <==> Copies(source.blocks, length, f) && !f.header && f.end == OK && f.endCopy == OK
    ensures status == OK
            ==> && copy.Valid() && copy.file == Fitted(source.file, length)
                && copy.blocks == BlocksFor(length) && copy.version == old(copy.version)
                && copy.registered && copy.locks == old(copy.locks)
    ensures status != OK ==> !copy.registered && copy.locks == old(copy.locks) - 1
  {
    var ok, crcs := CopyData(tables, source, copy, length, f);
    if !ok || f.header {
      Discard(copy, true, f);
      var _ := source.IOEnd(f.end);
      return IO;
    }
    copy.crcs := crcs;
    status := source.IOEnd(f.end);
    if status != OK {
      Discard(copy, true, f);
      return;
    }
    status := copy.IOEnd(f.endCopy);
    if status != OK {
      Discard(copy, false, f);
      return;
    }
    copy.blocks := BlocksFor(length);
  }

  /** Both chunks are opened and the copy is filled, or it is given up. */
  method MakeCopy(tables: CrcTables, source: Chunk, copy: Chunk, chunkVersion: nat, newVersion: nat, length: nat,
                  f: Faults)
    returns (status: Status)
    requires tables.Valid() && tables.poly == CRC_POLY && source != copy && source.Valid()
    requires length <= CHUNK_SIZE && copy.file == [] && copy.registered && copy.references == 0
    modifies copy, source`version, source`references
    ensures source.version == if chunkVersion != newVersion && !f.rename then newVersion else old(source.version)
    ensures source.references == old(source.references) + Leaked(Opens(chunkVersion, newVersion, f), f.end)
    ensures copy.references == Leaked(VersionChanges(chunkVersion, newVersion, f) && f.beginCopy == OK, f.endCopy)
    ensures status == OK <==> && VersionChanges(chunkVersion, newVersion, f) && f.beginCopy == OK
                              && Copies(source.blocks, length, f) && !f.header && f.end == OK && f.endCopy == OK
    ensures status == OK
            ==> && copy.Valid() && copy.file == Fitted(source.file, length)
                && copy.blocks == BlocksFor(length) && copy.version == old(copy.version)
                && copy.registered && copy.locks == old(copy.locks)
    ensures status != OK ==> !copy.registered && copy.locks == old(copy.locks) - 1
  {
    status := OpenSource(source, chunkVersion, newVersion, f);
    if status != OK {
      copy.Unregister();
      return;
    }
    status := copy.IOBegin(f.beginCopy);
    if status != OK {
      copy.Unregister();
      var _ := source.IOEnd(f.end);
      return;
    }
    status := FillCopy(tables, source, copy, length, f);
  }

  /** On every path the lock of the source is given back and its data is untouched; each
      chunk keeps its reference exactly if it was opened and closing it fails. If every
      operation succeeds, the copy is the source cut or extended to the length and padded to
      whole blocks, and every block has its checksum; otherwise no copy stays registered. */
  method DuplicateTruncate(tables: CrcTables, source: Chunk?, chunkVersion: nat, newVersion: nat,
                           copyVersion: nat, length: nat, diskFound: bool, copyExists: bool, f: Faults)
    returns (status: Status, copy: Chunk?)
    requires tables.Valid() && tables.poly == CRC_POLY
    requires source != null ==> source.Valid()
    modifies source
    ensures source != null
            ==> && source.locks == old(source.locks)
                && source.references == old(source.references)
                   + Leaked(Reaches(old(source.version), chunkVersion, length, diskFound, copyExists)
                            && Opens(chunkVersion, newVersion, f), f.end)
                && source.file == old(source.file) && source.crcs == old(source.crcs)
                && source.blocks == old(source.blocks)
                && source.version == (if Reaches(old(source.version), chunkVersion, length, diskFound, copyExists)
                                         && chunkVersion != newVersion && !f.rename
                                      then newVersion else old(source.version))
    ensures copy == null || fresh(copy)
    ensures status == OK
       <==> Duplicates(source != null, if source == null then 0 else old(source.version),
                       if source == null then 0 else old(source.blocks),
                       chunkVersion, newVersion, length, diskFound, copyExists, f)
    ensures status == OK
            ==> && source != null && copy != null && copy.Valid() && copy.registered
                && copy.locks == 0 && copy.references == 0
                && copy.version == (if copyVersion == 0 then newVersion else copyVersion)
                && copy.file == Fitted(source.file, length) && copy.blocks == BlocksFor(length)
    ensures status != OK && copy != null
            ==> && !copy.registered && copy.locks == 0
                && copy.references
                   == Leaked(VersionChanges(chunkVersion, newVersion, f) && f.beginCopy == OK, f.endCopy)
  {
    copy := null;
    if length > CHUNK_SIZE {
      return WRONGSIZE, null;
    }
    if source == null {
      return NOCHUNK, null;
    }
    source.Lock();
    if source.version != chunkVersion && chunkVersion > 0 {
      source.Release();
      return WRONGVERSION, null;
    }
    if !diskFound {
      source.Release();
      return NOSPACE, null;
    }
    if copyExists {
      source.Release();
      return CHUNKEXIST, null;
    }
    var dup := new Chunk(if copyVersion == 0 then newVersion else copyVersion);
    copy := dup;
    status := MakeCopy(tables, source, dup, chunkVersion, newVersion, length, f);
    if status == OK {
      dup.Release();
    }
    source.Release();
  }
}
