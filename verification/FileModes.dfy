/** io/fs file mode bits, and the few combinations the key-value file system computes. */
module FileModes {
  type FileMode = bv32

  const MODE_DIR: FileMode := 0x8000_0000
  /** Directory, symlink, device, named pipe, socket, character device, irregular. */
  const MODE_TYPE: FileMode := 0x8F28_0000
  const MODE_PERM: FileMode := 0x1FF
  /** The permission bits with setuid, setgid and sticky. */
  const CHMOD_BITS: FileMode := 0xD0_01FF

  predicate IsDir(m: FileMode) {
    m & MODE_DIR != 0
  }

  /** A regular file has no type bit. */
  predicate IsRegular(m: FileMode) {
    m & MODE_TYPE == 0
  }

  function DirMode(perm: FileMode): FileMode {
    MODE_DIR | (perm & MODE_PERM)
  }

  function ChmodMode(current: FileMode, wanted: FileMode): FileMode {
    (current & !CHMOD_BITS) | (wanted & CHMOD_BITS)
  }

  /** Chmod keeps every type bit, so it never turns a file into a directory or back;
      a new directory is one, and a created file is not. */
  lemma TypeBitsKept(current: FileMode, wanted: FileMode)
    ensures ChmodMode(current, wanted) & MODE_TYPE == current & MODE_TYPE
    ensures IsDir(ChmodMode(current, wanted)) == IsDir(current)
    ensures IsDir(DirMode(wanted)) && !IsDir(wanted & MODE_PERM)
  {
  }
}
