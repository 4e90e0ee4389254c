/** What becomes of a record that both branches have (daemon/merge.go:645-992), told in terms of the
    three versions alone. */
module RecordLaws {
  import opened Basics
  import opened Objects
  import opened FileContent
  import opened ByteMerge
  import opened StoredMerge
  import opened TreeMerge
  import opened MergeLaws

  // ---------------------------------------------------------------------------------------------
  // Contents

  function ContentOf(r: Record): seq<byte> {
    Stored(r.id).Contents()
  }

  /** The base's content, if the base is a regular file. */
  function BaseContent(base: Option<Record>): Option<seq<byte>> {
    if base.Some? && base.value.rtype.IsRegularFile() then Some(ContentOf(base.value)) else None
  }

  /** Nothing is stored behind the end of the file, and the record has its size. */
  predicate CleanFile(r: Record) {
    r.rtype.IsRegularFile() && Stored(r.id).Clean() && r.size == Stored(r.id).Length()
  }

  /** Two versions of one regular file, both changed. */
  ghost predicate BothChanged(base: Option<Record>, remote: Record, local: Record) {
    && CleanFile(remote) && CleanFile(local) && local.fileId == remote.fileId && local.id != remote.id
    && (base.Some? ==> base.value.id != local.id && base.value.id != remote.id)
    && (base.Some? && base.value.rtype.IsRegularFile() ==> Stored(base.value.id).Clean())
  }

  /** Every byte of r is the merge of the three versions, and its size and type are those of the longer
      one, remote's on a tie. */
  ghost predicate HoldsMerge(r: Record, base: Option<Record>, remote: Record, local: Record) {
    var longer := if local.size > remote.size then local else remote;
    && r.size == |ContentOf(r)| == longer.size && r.rtype == longer.rtype
    && r.id.DataKey? && r.id.ftype == longer.rtype
    && forall i: nat :: At(ContentOf(r), i) == MergedByte(BaseContent(base), ContentOf(local), ContentOf(remote),
                                                          local.modificationTime, remote.modificationTime, i)
  }

  lemma FileHoldsMerge(base: Option<Record>, remote: Record, local: Record, premerged: Record)
    requires BothChanged(base, remote, local)
    ensures HoldsMerge(MergeFile(base, remote, local, premerged), base, remote, local)
    ensures !FilePanics(base, remote, local)
  {
    var r := MergeFile(base, remote, local, premerged);
    assert AllClean(if base.Some? && base.value.rtype.IsRegularFile() then Some(Stored(base.value.id)) else None,
                    Stored(local.id), Stored(remote.id));
    FilesAreMergedByByte(base, remote, local, premerged);
    hide MergeFile, FilePanics, MergedByte, MergeLocalRemote, MergedContents, Blocks.Contents;
    assert ContentOf(r) == MergeLocalRemote(BaseContent(base), ContentOf(local), ContentOf(remote),
                                            local.modificationTime, remote.modificationTime);
    forall i: nat
      ensures At(ContentOf(r), i) == MergedByte(BaseContent(base), ContentOf(local), ContentOf(remote),
                                                local.modificationTime, remote.modificationTime, i)
    {
      EveryByte(BaseContent(base), ContentOf(local), ContentOf(remote),
                local.modificationTime, remote.modificationTime, i);
    }
  }

  /** A regular file that both branches changed gets the byte-level merge. */
  lemma RecordHoldsMerge(m: Merger, fast: bool, base: Option<Record>, remote: Record, local: Record, skip: set<string>)
    requires BothChanged(base, remote, local)
    ensures HoldsMerge(MergeRecord(m, fast, base, remote, local, skip), base, remote, local)
  {
    FileHoldsMerge(base, remote, local, m.MergeAttributes(base, remote, local));
  }

  // ---------------------------------------------------------------------------------------------
  // Attributes

  /** What the merge preference makes of two records that cannot be told apart otherwise. */
  ghost predicate Preferred(p: Preference, remote: Record, local: Record, r: Record) {
    match p
    case PreferLocal => r == local
    case PreferRemote => r == remote
    case PreferNewer =>
      && (r == local || r == remote)
      && r.contentTime >= local.contentTime && r.contentTime >= remote.contentTime
      && (local.contentTime == remote.contentTime ==> r == local)
  }

  /** The one record that is taken if there is no base, or the two are different files: a re-created one
      is kept before the base's. */
  ghost predicate Taken(p: Preference, base: Option<Record>, remote: Record, local: Record, r: Record) {
    if base.Some? && local.fileId == base.value.fileId then r == remote
    else if base.Some? && remote.fileId == base.value.fileId then r == local
    else Preferred(p, remote, local, r)
  }

  /** The contents of r: key, type and size together. */
  function Content(r: Record): (Key, ObjectType, nat) {
    (r.id, r.rtype, r.size)
  }

  /** All that r has besides its contents, and its extended attributes. */
  function Attributes(r: Record): Record {
    r.(id := ZeroKey, rtype := Special, size := 0, xattrs := 0)
  }

  /** Two versions of one file: every attribute is the three-way choice by content time. */
  ghost predicate ThreeWayAttributes(base: Record, remote: Record, local: Record, r: Record) {
    var later := remote.contentTime > local.contentTime;
    && r.permissions == ThreeWay(base.permissions, local.permissions, remote.permissions, later)
    && r.owner == ThreeWay(base.owner, local.owner, remote.owner, later)
    && r.group == ThreeWay(base.group, local.group, remote.group, later)
    && r.contentTime == ThreeWay(base.contentTime, local.contentTime, remote.contentTime, later)
    && r.modificationTime == ThreeWay(base.modificationTime, local.modificationTime, remote.modificationTime, later)
    && r.fileId == local.fileId
  }

  /** The attributes of a merged record, of whatever types but legs; for two directories too. */
  lemma RecordAttributes(m: Merger, fast: bool, base: Option<Record>, remote: Record, local: Record, skip: set<string>)
    requires !local.rtype.Hardlink? && !remote.rtype.Hardlink?
    ensures var r := MergeRecord(m, fast, base, remote, local, skip);
      if base.Some? && local.fileId == remote.fileId then
        && ThreeWayAttributes(base.value, remote, local, r)
        && r.xattrs == (if remote.contentTime > local.contentTime
                        then m.mergeXattrs(base.value.xattrs, remote.xattrs, local.xattrs)
                        else m.mergeXattrs(base.value.xattrs, local.xattrs, remote.xattrs))
      else exists c ::
        Taken(m.preference, base, remote, local, c) && Attributes(r) == Attributes(c) && r.xattrs == c.xattrs
  {
    hide MergeDirectory, MergedView;
    var c := m.MergeAttributes(base, remote, local);
    var r := MergeRecord(m, fast, base, remote, local, skip);
    if base.Some? && local.fileId == remote.fileId {
      AttributesAreThreeWay(m, base.value, remote, local);
    } else {
      assert Taken(m.preference, base, remote, local, c);
      assert Attributes(r) == Attributes(c) && r.xattrs == c.xattrs;
    }
  }

  /** The contents of a merged record that is neither descended into nor merged by byte: key, type and
      size come from one branch, of one file the one that changed the key. */
  lemma RecordContent(m: Merger, fast: bool, base: Option<Record>, remote: Record, local: Record, skip: set<string>)
    requires !local.rtype.Hardlink? && !remote.rtype.Hardlink?
    requires !(local.rtype.Directory? && remote.rtype.Directory?) || (base.Some? && !base.value.rtype.Directory?)
    requires local.rtype.IsRegularFile() && remote.rtype.IsRegularFile() && local.fileId == remote.fileId ==>
               local.id == remote.id || (base.Some? && base.value.id in {local.id, remote.id} - {ZeroKey})
    ensures var r := MergeRecord(m, fast, base, remote, local, skip);
      if base.Some? && local.fileId == remote.fileId then
        && r.id == ThreeWay(base.value.id, local.id, remote.id, remote.contentTime > local.contentTime)
        && (Content(r) == Content(local) || Content(r) == Content(remote))
      else Taken(m.preference, base, remote, local, r)
  {
  }

  /** Of two legs the one created later is kept, local's on a tie. */
  lemma LaterLegIsKept(m: Merger, fast: bool, base: Option<Record>, remote: Record, local: Record, skip: set<string>)
    requires local.rtype.Hardlink? && remote.rtype.Hardlink?
    ensures Preferred(PreferNewer, remote, local, MergeRecord(m, fast, base, remote, local, skip))
  {
  }

  /** Of a leg and anything else, on whichever side, the leg is kept, unless the other is a different
      file that was modified after the leg was created. */
  lemma LegAgainstFile(m: Merger, fast: bool, base: Option<Record>, leg: Record, other: Record, skip: set<string>)
    requires leg.rtype.Hardlink? && !other.rtype.Hardlink?
    ensures var kept := if leg.fileId != other.fileId && leg.contentTime < other.modificationTime then other else leg;
      && MergeRecord(m, fast, base, leg, other, skip) == kept
      && MergeRecord(m, fast, base, other, leg, skip) == kept
  {
  }
}
