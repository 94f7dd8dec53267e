/** What every part of the system shares: 32-bit words, bytes, and results that may be missing. */
module Machine {
  const UINT_LIMIT: nat := 0x1_0000_0000

  type Word = x: int | 0 <= x < UINT_LIMIT

  type Byte = x: int | 0 <= x < 256

  datatype Option<+T> = None | Some(value: T)

  // fs.h: the root directory, the length of a name and the size of a directory entry.
  const ROOTINO: nat := 1
  const DIRSIZ: nat := 14
  const DIRENT: nat := 16
}
