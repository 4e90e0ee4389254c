/** What all modules share: identifiers, times, bytes and options (datastore.go). */
module Basics {
  const UINT32_RANGE: nat := 0x1_0000_0000
  const UINT64_RANGE: nat := 0x1_0000_0000_0000_0000

  type FileId = nat
  type InodeId = nat

  const INODE_ID_INVALID: InodeId := 0
  const INODE_ID_ROOT: InodeId := 1
  const INODE_ID_API: InodeId := 2
  const RESERVED_END: InodeId := 3

  type Time = nat
  type byte = x: int | 0 <= x < 256

  datatype Option<+T> = None | Some(value: T)
}
