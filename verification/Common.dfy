/** What several parts of the chunkserver and the libraries share. */
module Common {
  const BLOCK_SIZE: nat := 0x1_0000
  const BLOCKS_IN_CHUNK: nat := 0x400
  const CHUNK_SIZE: nat := BLOCKS_IN_CHUNK * BLOCK_SIZE

  datatype Option<+T> = None | Some(value: T)

  function Min(a: nat, b: nat): nat {
    if a < b then a else b
  }
}
