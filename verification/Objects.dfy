/** Object types, keys and directory records (datastore.go). */
module Objects {
  import opened Basics
  import opened FileContent

  /** The object types that can appear in a directory record. */
  datatype ObjectType =
    | Directory
    | Hardlink
    | Symlink
    | SmallFile
    | MediumFile
    | LargeFile
    | VeryLargeFile
    | Special
  {
    predicate IsRegularFile() {
      SmallFile? || MediumFile? || LargeFile? || VeryLargeFile?
    }
  }

  /** Content addressing: a key is modelled by what it names, so that two keys are equal exactly when
      that is.  A file's key names its stored blocks, a directory's key its records by name. */
  datatype Key =
    | ZeroKey
    | EmbeddedKey
    | DataKey(ftype: ObjectType, blocks: Blocks)
    | DirKey(entries: map<string, Record>)

  datatype Record = Record(
    rtype: ObjectType,
    id: Key,
    size: nat,
    permissions: nat,
    owner: nat,
    group: nat,
    xattrs: nat,
    contentTime: Time,
    modificationTime: Time,
    fileId: FileId)

  /** What loading the records of a directory yields. */
  function Entries(k: Key): map<string, Record> {
    if k.DirKey? then k.entries else map[]
  }

  /** The blocks that an accessor loaded from the key shows. */
  function Stored(k: Key): (f: Blocks)
    ensures f.WellFormed()
  {
    if k.DataKey? && k.blocks.WellFormed() then k.blocks else Blocks([], 0)
  }
}
