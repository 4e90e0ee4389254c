/** Identity laws of the tree merge, and the soundness of its key-equality shortcut
    (daemon/merge.go:406-436, 645-840).  Trees are compared up to extended attributes, whose
    merge is left uninterpreted. */
module MergeLaws {
  import opened Basics
  import opened Objects
  import opened TreeMerge
  import ByteMerge
  import opened FileContent
  import opened StoredMerge

  /** Equal trees but for extended-attribute keys. */
  ghost predicate SameKey(a: Key, b: Key)
    decreases a, 0
  {
    if a.DirKey? && b.DirKey? then
      a.entries.Keys == b.entries.Keys &&
      forall n :: n in a.entries ==> SameRecord(a.entries[n], b.entries[n])
    else a == b
  }

  ghost predicate SameRecord(a: Record, b: Record)
    decreases a, 1
  {
    SameKey(a.id, b.id) && a.(id := ZeroKey, xattrs := 0) == b.(id := ZeroKey, xattrs := 0)
  }

  lemma {:induction false} SameReflexive(k: Key)
    ensures SameKey(k, k)
    decreases k
  {
    if k.DirKey? {
      forall n | n in k.entries ensures SameRecord(k.entries[n], k.entries[n]) {
        SameReflexive(k.entries[n].id);
      }
    }
  }

  lemma SameFields(a: Record, b: Record)
    requires a == b.(xattrs := a.xattrs)
    ensures SameRecord(a, b)
  {
    SameReflexive(a.id);
  }

  /** A well-formed tree without hardlinks. */
  ghost predicate PlainTree(k: Key)
    decreases k, 0
  {
    k.DirKey? && forall n :: n in k.entries ==> PlainRecord(k.entries[n])
  }

  ghost predicate PlainRecord(r: Record)
    decreases r, 1
  {
    && !r.rtype.Hardlink?
    && (r.rtype.IsRegularFile() ==> r.id.DataKey?)
    && (r.rtype.Directory? ==> PlainTree(r.id))
  }

  /** An object key determines the type and the size recorded with it. */
  ghost predicate Coherent(a: Key, b: Key)
    decreases a, 0
  {
    forall n :: n in Entries(a) && n in Entries(b) ==> CoherentRecords(Entries(a)[n], Entries(b)[n])
  }

  ghost predicate CoherentRecords(a: Record, b: Record)
    decreases a, 1
  {
    && (a.id == b.id ==> a.rtype == b.rtype && a.size == b.size)
    && (a.rtype.Directory? && b.rtype.Directory? ==> Coherent(a.id, b.id))
  }

  // ---------------------------------------------------------------------------------------------
  // Single records

  /** The three-way choice between two branches: one that kept the base yields, and if neither did
      the later one wins, local on a tie. */
  function ThreeWay<T(==)>(base: T, local: T, remote: T, remoteIsLater: bool): T {
    if local == base then remote
    else if remote == base then local
    else if remoteIsLater then remote else local
  }

  /** Two versions of one file are merged field by field; type and size go with the key. */
  lemma AttributesAreThreeWay(m: Merger, base: Record, remote: Record, local: Record)
    requires local.fileId == remote.fileId
    ensures var r, later := m.MergeAttributes(Some(base), remote, local), remote.contentTime > local.contentTime;
      && r.permissions == ThreeWay(base.permissions, local.permissions, remote.permissions, later)
      && r.owner == ThreeWay(base.owner, local.owner, remote.owner, later)
      && r.group == ThreeWay(base.group, local.group, remote.group, later)
      && r.contentTime == ThreeWay(base.contentTime, local.contentTime, remote.contentTime, later)
      && r.modificationTime == ThreeWay(base.modificationTime, local.modificationTime, remote.modificationTime, later)
      && r.id == ThreeWay(base.id, local.id, remote.id, later)
      && ((r.id, r.rtype, r.size) == (local.id, local.rtype, local.size)
          || (r.id, r.rtype, r.size) == (remote.id, remote.rtype, remote.size))
      && r.fileId == local.fileId
  {
  }

  /** Preferring the newer record, it does not matter which branch is called local, but on a tie. */
  lemma BranchesAreSymmetric(m: Merger, base: Option<Record>, remote: Record, local: Record)
    requires m.preference.PreferNewer? && remote.contentTime != local.contentTime
    ensures m.MergeAttributes(base, remote, local) == m.MergeAttributes(base, local, remote)
  {
  }

  /** Two versions of a regular file that both changed: the record names blocks that hold the merge of
      all that is stored of the two, of clean files the three-way merge of their contents, and it has
      a size to match. */
  lemma FilesAreMergedByByte(base: Option<Record>, remote: Record, local: Record, premerged: Record)
    requires MergesContents(base, remote, local)
    requires local.size == Stored(local.id).Length() && remote.size == Stored(remote.id).Length()
    ensures var r := MergeFile(base, remote, local, premerged);
      var (iter, other) := ChooseAccessors(remote, local);
      var b := if base.Some? && base.value.rtype.IsRegularFile() then Some(Stored(base.value.id)) else None;
      var l, m := Stored(local.id), Stored(remote.id);
      && r == premerged.(id := r.id, size := r.size, rtype := other.rtype) && r.id.DataKey? && r.id.ftype == other.rtype
      && r.size == Stored(r.id).Length()
      && Stored(r.id).Contents()
         == MergedContents(b, Stored(iter.id), Stored(other.id), iter.modificationTime > other.modificationTime)
      && (AllClean(b, l, m) ==>
            && !FilePanics(base, remote, local)
            && Stored(r.id).Contents()
               == ByteMerge.MergeLocalRemote(if b.Some? then Some(b.value.Contents()) else None,
                                             l.Contents(), m.Contents(),
                                             local.modificationTime, remote.modificationTime))
  {
    var (iter, other) := ChooseAccessors(remote, local);
    var b := if base.Some? && base.value.rtype.IsRegularFile() then Some(Stored(base.value.id)) else None;
    var i, o, older := Stored(iter.id), Stored(other.id), iter.modificationTime > other.modificationTime;
    MergedViewContents(b, i, o, older, other.rtype.SmallFile?);
    if AllClean(b, i, o) {
      CleanMerge(b, i, o, older);
    }
    hide MergedView, MergedContents, ByteMerge.MergedBytes, Overlong;
  }

  // ---------------------------------------------------------------------------------------------
  // merge(b, b, l) = l, with shortcuts (`fast`, as the code does it) and without

  lemma {:induction false} RemoteUnchanged(m: Merger, fast: bool, base: Key, local: Key, premerged: Key,
                                           skip: set<string>)
    requires PlainTree(base) && PlainTree(local) && Coherent(base, local)
    requires fast ==> premerged == ZeroKey || premerged == local
    ensures SameKey(MergeDirectory(m, fast, base, base, local, premerged, skip), local)
    decreases local, 1
  {
    if fast && Shortcut(base, base, local, premerged) {
      SameReflexive(local);
    } else {
      var merged := MergedEntries(m, fast, base, base, local, skip);
      assert merged.Keys == local.entries.Keys;
      forall n | n in merged ensures SameRecord(merged[n], local.entries[n]) {
        assert merged[n] == MergeName(m, fast, base, base, local, skip, n);
        assert PlainRecord(local.entries[n]);
        if Both(base, local, skip, n) {
          assert CoherentRecords(base.entries[n], local.entries[n]) && PlainRecord(base.entries[n]);
          RemoteRecordUnchanged(m, fast, base.entries[n], local.entries[n], ChildSkipPaths(skip, n));
        } else {
          SameFields(merged[n], local.entries[n]);
        }
      }
    }
  }

  lemma {:induction false} RemoteRecordUnchanged(m: Merger, fast: bool, base: Record, local: Record, skip: set<string>)
    requires PlainRecord(base) && PlainRecord(local) && CoherentRecords(base, local)
    ensures SameRecord(MergeRecord(m, fast, Some(base), base, local, skip), local)
    decreases local, 0
  {
    var merged := m.MergeAttributes(Some(base), base, local);
    assert merged == local.(xattrs := merged.xattrs);
    SameFields(merged, local);
    if IsDeep(Some(base), base, local) {
      RemoteUnchanged(m, fast, base.id, local.id, merged.id, skip);
    }
  }

  // ---------------------------------------------------------------------------------------------
  // merge(b, r, b) = r

  lemma {:induction false} LocalUnchanged(m: Merger, fast: bool, base: Key, remote: Key, premerged: Key)
    requires PlainTree(base) && PlainTree(remote) && Coherent(base, remote)
    requires fast ==> premerged == ZeroKey || premerged == remote
    ensures SameKey(MergeDirectory(m, fast, base, remote, base, premerged, {}), remote)
    decreases base, 1
  {
    if fast && Shortcut(base, remote, base, premerged) {
      SameReflexive(remote);
    } else {
      var merged := MergedEntries(m, fast, base, remote, base, {});
      assert merged.Keys == remote.entries.Keys;
      forall n | n in merged ensures SameRecord(merged[n], remote.entries[n]) {
        assert merged[n] == MergeName(m, fast, base, remote, base, {}, n);
        assert PlainRecord(remote.entries[n]);
        if n in base.entries {
          assert CoherentRecords(base.entries[n], remote.entries[n]) && PlainRecord(base.entries[n]);
          assert ChildSkipPaths({}, n) == {};
          LocalRecordUnchanged(m, fast, base.entries[n], remote.entries[n]);
        } else {
          SameFields(merged[n], remote.entries[n]);
        }
      }
    }
  }

  lemma {:induction false} LocalRecordUnchanged(m: Merger, fast: bool, base: Record, remote: Record)
    requires PlainRecord(base) && PlainRecord(remote) && CoherentRecords(base, remote)
    ensures SameRecord(MergeRecord(m, fast, Some(base), remote, base, {}), remote)
    decreases base, 0
  {
    var merged := m.MergeAttributes(Some(base), remote, base);
    assert merged == remote.(xattrs := merged.xattrs);
    SameFields(merged, remote);
    if IsDeep(Some(base), remote, base) {
      LocalUnchanged(m, fast, base.id, remote.id, merged.id);
    }
  }

  // ---------------------------------------------------------------------------------------------
  // merge(b, x, x) = x, whatever the base

  lemma {:induction false} BothSame(m: Merger, fast: bool, base: Key, x: Key, premerged: Key, skip: set<string>)
    requires PlainTree(x)
    requires fast ==> premerged == ZeroKey || premerged == x
    ensures SameKey(MergeDirectory(m, fast, base, x, x, premerged, skip), x)
    decreases x, 1
  {
    if fast && Shortcut(base, x, x, premerged) {
      SameReflexive(x);
    } else {
      var merged := MergedEntries(m, fast, base, x, x, skip);
      assert merged.Keys == x.entries.Keys;
      forall n | n in merged ensures SameRecord(merged[n], x.entries[n]) {
        assert merged[n] == MergeName(m, fast, base, x, x, skip, n);
        assert PlainRecord(x.entries[n]);
        if n in skip {
          SameFields(merged[n], x.entries[n]);
        } else {
          BothRecordsSame(m, fast, Lookup(base, n), x.entries[n], ChildSkipPaths(skip, n));
        }
      }
    }
  }

  lemma {:induction false} BothRecordsSame(m: Merger, fast: bool, base: Option<Record>, x: Record, skip: set<string>)
    requires PlainRecord(x)
    ensures SameRecord(MergeRecord(m, fast, base, x, x, skip), x)
    decreases x, 0
  {
    var merged := m.MergeAttributes(base, x, x);
    assert merged == x.(xattrs := merged.xattrs);
    SameFields(merged, x);
    if IsDeep(base, x, x) {
      BothSame(m, fast, IdOf(base), x.id, merged.id, skip);
    }
  }

  // ---------------------------------------------------------------------------------------------
  // The shortcut

  /** Where all three sides have a directory of one name, local and remote mean the same one. */
  ghost predicate SameDirectories(base: Key, remote: Key, local: Key)
    decreases local, 0
  {
    forall n :: n in Entries(base) && n in Entries(remote) && n in Entries(local) &&
                IsDeep(Lookup(base, n), Entries(remote)[n], Entries(local)[n]) ==>
      && Entries(local)[n].fileId == Entries(remote)[n].fileId
      && SameDirectories(Entries(base)[n].id, Entries(remote)[n].id, Entries(local)[n].id)
  }

  /** What the attribute merge hands down when the shortcut applies. */
  predicate PremergedAgrees(base: Key, remote: Key, local: Key, premerged: Key) {
    Shortcut(base, remote, local, premerged) ==>
      premerged == if local == remote || remote == base then local else remote
  }

  ghost predicate Mergeable(base: Key, remote: Key, local: Key) {
    && PlainTree(remote) && PlainTree(local) && (base == ZeroKey || PlainTree(base))
    && Coherent(base, remote) && Coherent(base, local)
    && SameDirectories(base, remote, local)
  }

  /** The merge with shortcuts yields the tree of the merge that never takes one. */
  lemma {:induction false} ShortcutRefinesFullMerge(m: Merger, base: Key, remote: Key, local: Key, premerged: Key)
    requires Mergeable(base, remote, local)
    requires PremergedAgrees(base, remote, local, premerged)
    ensures SameKey(MergeDirectory(m, false, base, remote, local, premerged, {}),
                    MergeDirectory(m, true, base, remote, local, premerged, {}))
    decreases local, 1
  {
    if Shortcut(base, remote, local, premerged) {
      if local == remote {
        BothSame(m, false, base, local, premerged, {});
      } else if remote == base {
        RemoteUnchanged(m, false, base, local, premerged, {});
      } else {
        LocalUnchanged(m, false, base, remote, premerged);
      }
    } else {
      FullStep(m, base, remote, local);
    }
  }

  lemma {:induction false} FullStep(m: Merger, base: Key, remote: Key, local: Key)
    requires Mergeable(base, remote, local)
    ensures SameKey(DirKey(MergedEntries(m, false, base, remote, local, {})),
                    DirKey(MergedEntries(m, true, base, remote, local, {})))
    decreases local, 0
  {
    var full := MergedEntries(m, false, base, remote, local, {});
    var fast := MergedEntries(m, true, base, remote, local, {});
    forall n | n in full ensures SameRecord(full[n], fast[n]) {
      assert full[n] == MergeName(m, false, base, remote, local, {}, n);
      assert fast[n] == MergeName(m, true, base, remote, local, {}, n);
      assert ChildSkipPaths({}, n) == {};
      if Both(remote, local, {}, n) {
        MergeableRecords(base, remote, local, n);
        RecordRefines(m, Lookup(base, n), Entries(remote)[n], Entries(local)[n]);
      } else {
        SameFields(full[n], fast[n]);
      }
    }
  }

  ghost predicate MergeableRecord(base: Option<Record>, remote: Record, local: Record) {
    && PlainRecord(remote) && PlainRecord(local) && (base.Some? ==> PlainRecord(base.value))
    && (IsDeep(base, remote, local) ==>
          Mergeable(IdOf(base), remote.id, local.id) && (base.Some? ==> local.fileId == remote.fileId))
  }

  lemma MergeableRecords(base: Key, remote: Key, local: Key, n: string)
    requires Mergeable(base, remote, local) && n in Entries(remote) && n in Entries(local)
    ensures MergeableRecord(Lookup(base, n), Entries(remote)[n], Entries(local)[n])
  {
    assert PlainRecord(remote.entries[n]) && PlainRecord(local.entries[n]);
    if n in Entries(base) {
      assert PlainRecord(Entries(base)[n]);
      assert CoherentRecords(Entries(base)[n], Entries(remote)[n]);
      assert CoherentRecords(Entries(base)[n], Entries(local)[n]);
    }
  }

  lemma {:induction false} RecordRefines(m: Merger, base: Option<Record>, remote: Record, local: Record)
    requires MergeableRecord(base, remote, local)
    ensures SameRecord(MergeRecord(m, false, base, remote, local, {}), MergeRecord(m, true, base, remote, local, {}))
    decreases local, 0
  {
    if IsDeep(base, remote, local) {
      var merged := m.MergeAttributes(base, remote, local);
      ShortcutRefinesFullMerge(m, IdOf(base), remote.id, local.id, merged.id);
    } else {
      SameFields(MergeRecord(m, false, base, remote, local, {}), MergeRecord(m, true, base, remote, local, {}));
    }
  }

  // ---------------------------------------------------------------------------------------------
  // Exactly when one shortcut is right, whatever the file ids

  lemma {:induction false} SameSymmetric(a: Key, b: Key)
    requires SameKey(a, b)
    ensures SameKey(b, a)
    decreases a
  {
    if a.DirKey? && b.DirKey? {
      forall n | n in b.entries ensures SameRecord(b.entries[n], a.entries[n]) {
        assert SameRecord(a.entries[n], b.entries[n]);
        SameSymmetric(a.entries[n].id, b.entries[n].id);
      }
    }
  }

  lemma {:induction false} SameTransitive(a: Key, b: Key, c: Key)
    requires SameKey(a, b) && SameKey(b, c)
    ensures SameKey(a, c)
    decreases a
  {
    if a.DirKey? && b.DirKey? && c.DirKey? {
      forall n | n in a.entries ensures SameRecord(a.entries[n], c.entries[n]) {
        assert SameRecord(a.entries[n], b.entries[n]) && SameRecord(b.entries[n], c.entries[n]);
        SameTransitive(a.entries[n].id, b.entries[n].id, c.entries[n].id);
      }
    }
  }

  /** A shortcut gives what the full merge gives if and only if the premerged tree is the one of the
      side that changed. */
  lemma ShortcutTakesPremerged(m: Merger, base: Key, remote: Key, local: Key, premerged: Key)
    requires PlainTree(remote) && PlainTree(local) && (base == ZeroKey || PlainTree(base))
    requires Coherent(base, remote) && Coherent(base, local)
    requires Shortcut(base, remote, local, premerged)
    ensures var changed := if local == remote || remote == base then local else remote;
            SameKey(MergeDirectory(m, false, base, remote, local, premerged, {}),
                    MergeDirectory(m, true, base, remote, local, premerged, {}))
            <==> SameKey(changed, premerged)
  {
    var changed := if local == remote || remote == base then local else remote;
    var full := MergeDirectory(m, false, base, remote, local, premerged, {});
    if local == remote {
      BothSame(m, false, base, local, premerged, {});
    } else if remote == base {
      RemoteUnchanged(m, false, base, local, premerged, {});
    } else {
      LocalUnchanged(m, false, base, remote, premerged);
    }
    assert SameKey(full, changed);
    SameSymmetric(full, changed);
    if SameKey(changed, premerged) {
      SameTransitive(full, changed, premerged);
    }
    if SameKey(full, premerged) {
      SameTransitive(changed, full, premerged);
    }
  }

  /** The record that mergeAttributes takes when local and remote are different files. */
  function ChosenByFileId(m: Merger, base: Record, remote: Record, local: Record): Record {
    if local.fileId == base.fileId then remote
    else if remote.fileId == base.fileId then local
    else m.Pick(if remote.contentTime > local.contentTime then remote else local, local, remote)
  }

  /** Where keys allow a shortcut between directory records, it loses nothing if and only if they are
      the same directory, or hold the same, or the one chosen by its file id is not the base's tree. */
  lemma ShortcutExactlyWhen(m: Merger, base: Option<Record>, remote: Record, local: Record)
    requires IsDeep(base, remote, local) && !NeedDeeperMergeId(IdOf(base), remote.id, local.id)
    requires PlainRecord(remote) && PlainRecord(local) && (base.Some? ==> PlainRecord(base.value))
    requires Coherent(IdOf(base), remote.id) && Coherent(IdOf(base), local.id)
    ensures SameRecord(MergeRecord(m, false, base, remote, local, {}), MergeRecord(m, true, base, remote, local, {}))
       <==> || base.None? || local.fileId == remote.fileId || SameKey(remote.id, local.id)
            || ChosenByFileId(m, base.value, remote, local).id != base.value.id
  {
    hide SameKey, MergeDirectory, Coherent, Merger.MergeAttributes, ChosenByFileId;
    var merged := m.MergeAttributes(base, remote, local);
    PremergedKey(m, base, remote, local);
    ShortcutTakesPremerged(m, IdOf(base), remote.id, local.id, merged.id);
  }

  /** When the premerged key holds what the side that changed the directory has. */
  lemma PremergedKey(m: Merger, base: Option<Record>, remote: Record, local: Record)
    requires IsDeep(base, remote, local) && !NeedDeeperMergeId(IdOf(base), remote.id, local.id)
    requires PlainRecord(remote) && PlainRecord(local) && (base.Some? ==> PlainRecord(base.value))
    ensures var merged := m.MergeAttributes(base, remote, local).id;
      var changed := if local.id == remote.id || remote.id == IdOf(base) then local.id else remote.id;
      && merged != ZeroKey
      && (SameKey(changed, merged) <==>
            || base.None? || local.fileId == remote.fileId || SameKey(remote.id, local.id)
            || ChosenByFileId(m, base.value, remote, local).id != base.value.id)
  {
    assert remote.id != ZeroKey && local.id != ZeroKey && (base.Some? ==> base.value.id != ZeroKey);
    MergedId(m, base, remote, local);
    hide SameKey, PlainRecord, Merger.MergeAttributes, ChosenByFileId, IsDeep;
    SameEitherWay(remote.id, local.id);
    SameReflexive(local.id);
    SameReflexive(remote.id);
  }

  /** The key that mergeAttributes picks: by file id, or else the side that left the base's. */
  lemma MergedId(m: Merger, base: Option<Record>, remote: Record, local: Record)
    ensures var id := m.MergeAttributes(base, remote, local).id;
      && (id == local.id || id == remote.id)
      && (base.Some? && local.fileId != remote.fileId ==>
            id == ChosenByFileId(m, base.value, remote, local).id)
      && (base.Some? && local.fileId == remote.fileId ==>
            && (local.id == base.value.id ==> id == remote.id) && (remote.id == base.value.id ==> id == local.id))
  {
  }

  lemma SameEitherWay(a: Key, b: Key)
    ensures SameKey(a, b) <==> SameKey(b, a)
  {
    if SameKey(a, b) {
      SameSymmetric(a, b);
    } else if SameKey(b, a) {
      SameSymmetric(b, a);
    }
  }

  /** The condition on file ids is needed.  When remote re-created a directory with its old content,
      the shortcut takes that content and local's new file is lost; the full merge keeps it. */
  lemma RecreatedDirectoryLosesAddition(m: Merger, file: Record)
    ensures var before, grown := DirKey(map[]), DirKey(map["x" := file]);
            && MergeRecord(m, true, Some(Dir(before, 1)), Dir(before, 2), Dir(grown, 1), {}).id == before
            && "x" in Entries(MergeRecord(m, false, Some(Dir(before, 1)), Dir(before, 2), Dir(grown, 1), {}).id)
  {
    var before, grown := DirKey(map[]), DirKey(map["x" := file]);
    assert "x" in Entries(grown) && "x" !in Entries(before);
    assert MergedNames(before, before, grown) == {"x"};
    assert "x" in MergedEntries(m, false, before, before, grown, {});
  }

  function Dir(k: Key, f: FileId): Record {
    Record(Directory, k, 0, 0, 0, 0, 0, 1, 1, f)
  }
}
