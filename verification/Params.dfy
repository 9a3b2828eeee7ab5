/** Constants of kernel/param.h and kernel/fs.h that several modules share. */
module Params {
  const MAXOPBLOCKS: nat := 10   // blocks one file-system operation may write
  const LOGBLOCKS: nat := 30     // entries of the in-memory log header
  const NBUF: nat := 30          // buffers in the cache
}
