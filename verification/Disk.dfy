/** Parameters and the block device shared by the log, the buffer cache and the file system.
    The device is a sequence of blocks; writing one block is atomic, as in memide.c. */
module DiskModel {
  const BSIZE := 512           // bytes in a block
  const WORDS_PER_BLOCK := 128 // 32-bit words in a block
  const MAXOPBLOCKS := 10      // blocks one file-system operation may log
  const LOGSIZE := 30          // blocks the log header can name
  const FSSIZE := 1000         // blocks on the disk that mkfs makes
  const NBUF := 30             // buffers in the cache

  /** A C `uint`. */
  type Word = w: int | 0 <= w < 0x1_0000_0000

  /** A block seen as 32-bit words, the way the log header and indirect blocks use it. */
  datatype RawBlock = RawBlock(words: seq<Word>)
  type Block = b: RawBlock | |b.words| == WORDS_PER_BLOCK witness RawBlock(seq(WORDS_PER_BLOCK, i => 0))

  type Disk = seq<Block>
}
