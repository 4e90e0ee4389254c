/** The three-way merge of workspace trees (daemon/merge.go), as functions. */
module TreeMerge {
  import opened Basics
  import opened Objects
  import opened StoredMerge

  datatype Preference = PreferNewer | PreferLocal | PreferRemote

  /** The merge preference and the (uninterpreted) merge of extended-attribute keys. */
  datatype Merger = Merger(preference: Preference, mergeXattrs: (nat, nat, nat) -> nat)
  {
    function Pick(newer: Record, local: Record, remote: Record): Record {
      match preference
      case PreferNewer => newer
      case PreferLocal => local
      case PreferRemote => remote
    }

    /** Field by field: the older record supplies what the newer one left as in the base. */
    function MergeFields(base: Record, newer: Record, older: Record): Record {
      var sameId := base.id == newer.id;
      newer.(id := if sameId then older.id else newer.id,
             size := if sameId then older.size else newer.size,
             rtype := if sameId then older.rtype else newer.rtype,
             permissions := if base.permissions == newer.permissions then older.permissions else newer.permissions,
             owner := if base.owner == newer.owner then older.owner else newer.owner,
             group := if base.group == newer.group then older.group else newer.group,
             xattrs := mergeXattrs(base.xattrs, newer.xattrs, older.xattrs),
             contentTime := if base.contentTime == newer.contentTime then older.contentTime else newer.contentTime,
             modificationTime := if base.modificationTime == newer.modificationTime
                                 then older.modificationTime else newer.modificationTime)
    }

    function MergeAttributes(base: Option<Record>, remote: Record, local: Record): Record {
      var remoteNewer := remote.contentTime > local.contentTime;
      var newer := if remoteNewer then remote else local;
      var older := if remoteNewer then local else remote;
      if base.None? then
        Pick(newer, local, remote)
      else if local.fileId != remote.fileId then
        if local.fileId == base.value.fileId then remote
        else if remote.fileId == base.value.fileId then local
        else Pick(newer, local, remote)
      else
        MergeFields(base.value, newer, older)
    }
  }

  predicate NeedDeeperMergeId(base: Key, remote: Key, local: Key) {
    && local != remote
    && (base == ZeroKey || local != base)
    && (base == ZeroKey || remote != base)
  }

  function IdOf(r: Option<Record>): Key {
    if r.Some? then r.value.id else ZeroKey
  }

  /** Both branches changed one regular file: its contents are merged. */
  predicate MergesContents(base: Option<Record>, remote: Record, local: Record) {
    && NeedDeeperMergeId(IdOf(base), remote.id, local.id)
    && local.fileId == remote.fileId && local.rtype.IsRegularFile() && remote.rtype.IsRegularFile()
  }

  /** chooseAccessors: the shorter file and the longer one, remote's on a tie. */
  function ChooseAccessors(remote: Record, local: Record): (Record, Record) {
    if local.size > remote.size then (remote, local) else (local, remote)
  }

  /** mergeFile: an intra-file merge of two versions of one regular file. */
  function MergeFile(base: Option<Record>, remote: Record, local: Record, premerged: Record): Record {
    if !MergesContents(base, remote, local) then premerged
    else
      var baseView := if base.Some? && base.value.rtype.IsRegularFile() then Some(Stored(base.value.id)) else None;
      var (iter, other) := ChooseAccessors(remote, local);
      var view := MergedView(baseView, Stored(iter.id), Stored(other.id),
                             iter.modificationTime > other.modificationTime, other.rtype.SmallFile?);
      premerged.(rtype := other.rtype, size := view.Length(), id := DataKey(other.rtype, view))
  }

  /** The intra-file merge is carried out and its assertion fails. */
  predicate FilePanics(base: Option<Record>, remote: Record, local: Record) {
    && MergesContents(base, remote, local)
    && var (iter, other) := ChooseAccessors(remote, local); Overlong(Stored(iter.id), Stored(other.id))
  }

  /** The guard of the recursive descent in mergeRecord. */
  predicate IsDeep(base: Option<Record>, remote: Record, local: Record) {
    && local.rtype.Directory?
    && remote.rtype.Directory?
    && (base.Some? ==> base.value.rtype.Directory?)
  }

  /** What mergeRecord returns for a name that does not lead to a descent. */
  function MergeShallow(m: Merger, base: Option<Record>, remote: Record, local: Record): Record {
    var merged := m.MergeAttributes(base, remote, local);
    if local.rtype.Hardlink? && remote.rtype.Hardlink? then
      if remote.contentTime > local.contentTime then remote else local
    else if local.rtype.IsRegularFile() && remote.rtype.IsRegularFile() then
      MergeFile(base, remote, local, merged)
    else if local.rtype.Hardlink? || remote.rtype.Hardlink? then
      if local.fileId != remote.fileId && !remote.rtype.Hardlink? &&
         local.contentTime < remote.modificationTime then remote
      else if local.fileId != remote.fileId && !local.rtype.Hardlink? &&
              remote.contentTime < local.modificationTime then local
      else if remote.rtype.Hardlink? then remote else local
    else merged
  }

  /** childSkipPaths: the skip paths that start with the child's name, trimmed by "name/". */
  function ChildSkipPaths(skip: set<string>, name: string): set<string> {
    set p | p in skip && name <= p :: if name + "/" <= p then p[|name| + 1..] else p
  }

  function Lookup(k: Key, name: string): Option<Record> {
    if name in Entries(k) then Some(Entries(k)[name]) else None
  }

  /** The names of a merged directory: what local kept, less what remote deleted, plus what
      remote added. */
  function MergedNames(base: Key, remote: Key, local: Key): set<string> {
    var b, r, l := Entries(base).Keys, Entries(remote).Keys, Entries(local).Keys;
    (l - (b - r)) + (r - b)
  }

  /** The condition of the key-equality shortcut. */
  predicate Shortcut(base: Key, remote: Key, local: Key, premerged: Key) {
    premerged != ZeroKey && !NeedDeeperMergeId(base, remote, local)
  }

  /** mergeRecord.  With `fast` the descent may be cut short by equal keys, as in the code; without
      it every descent is carried out record by record. */
  function MergeRecord(m: Merger, fast: bool, base: Option<Record>, remote: Record, local: Record,
                       skip: set<string>): Record
    decreases local, 1
  {
    if IsDeep(base, remote, local) then
      var merged := m.MergeAttributes(base, remote, local);
      merged.(id := MergeDirectory(m, fast, IdOf(base), remote.id, local.id, merged.id, skip))
    else
      MergeShallow(m, base, remote, local)
  }

  /** mergeDirectory.  A missing base is ZeroKey, which has no entries. */
  function MergeDirectory(m: Merger, fast: bool, base: Key, remote: Key, local: Key, premerged: Key,
                          skip: set<string>): Key
    decreases local, 4
  {
    if fast && Shortcut(base, remote, local, premerged) then premerged
    else DirKey(MergedEntries(m, fast, base, remote, local, skip))
  }

  function MergedEntries(m: Merger, fast: bool, base: Key, remote: Key, local: Key, skip: set<string>)
    : map<string, Record>
    decreases local, 3
  {
    map n | n in MergedNames(base, remote, local) :: MergeName(m, fast, base, remote, local, skip, n)
  }

  /** The merged record of one surviving name. */
  function MergeName(m: Merger, fast: bool, base: Key, remote: Key, local: Key, skip: set<string>,
                     n: string): Record
    requires n in MergedNames(base, remote, local)
    decreases local, 2
  {
    if n !in Entries(local) then Entries(remote)[n]
    else if n !in Entries(remote) || n in skip then Entries(local)[n]
    else MergeRecord(m, fast, Lookup(base, n), Entries(remote)[n], Entries(local)[n], ChildSkipPaths(skip, n))
  }

  /** A name's record when both sides have it and it is not skipped. */
  predicate Both(remote: Key, local: Key, skip: set<string>, n: string) {
    n in Entries(remote) && n in Entries(local) && n !in skip
  }
}
