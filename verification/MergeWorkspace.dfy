/** mergeWorkspaceRoot (daemon/merge.go): directory tree and hardlink table together. */
module MergeWorkspace {
  import opened Basics
  import opened Objects
  import opened FileContent
  import opened TreeMerge
  import opened MergeLaws
  import opened RecordLaws
  import opened MergeLinks
  import opened Sums

  /** A published hardlink table entry. */
  datatype Link = Link(record: Record, nlink: int)

  datatype Workspace = Workspace(links: map<FileId, Link>, dir: Key)

  function Count(links: map<FileId, Link>, f: FileId): int {
    if f in links then links[f].nlink else 0
  }

  /** The table counts exactly the legs of the tree, and lists no legless file. */
  ghost predicate Consistent(ws: Workspace) {
    && (forall f :: f in ws.links ==> ws.links[f].nlink > 0)
    && (forall f {:trigger Legs(ws.dir, f)} :: Count(ws.links, f) == Legs(ws.dir, f))
  }

  function RecordIn(links: map<FileId, Link>, f: FileId): Option<Record> {
    if f in links then Some(links[f].record) else None
  }

  /** The intra-file merge of the record of a file known to both sides panics. */
  predicate LinkPanics(base: map<FileId, Link>, remote: map<FileId, Link>, local: map<FileId, Link>,
                       f: FileId)
  {
    f in remote && f in local && FilePanics(RecordIn(base, f), remote[f].record, local[f].record)
  }

  /** The record of a file known to both sides is merged like any other. */
  function MergedLinkRecord(m: Merger, base: map<FileId, Link>, remote: Record, local: Record, f: FileId): Record {
    var baseRecord := RecordIn(base, f);
    MergeFile(baseRecord, remote, local, m.MergeAttributes(baseRecord, remote, local))
  }

  /** newHardlinkTracker: local's counts, zero for files only remote knows. */
  function TrackerEntry(m: Merger, base: map<FileId, Link>, remote: map<FileId, Link>,
                        local: map<FileId, Link>, f: FileId): Link
    requires f in remote || f in local
  {
    if f !in local then Link(remote[f].record, 0)
    else if f in remote then
      Link(MergedLinkRecord(m, base, remote[f].record, local[f].record, f), local[f].nlink)
    else local[f]
  }

  function TrackerStart(m: Merger, base: map<FileId, Link>, remote: map<FileId, Link>,
                        local: map<FileId, Link>): map<FileId, Link>
  {
    map f | f in remote.Keys + local.Keys :: TrackerEntry(m, base, remote, local, f)
  }

  /** newHardlinkTracker's two loops, in any order of the file ids; false if a merge of records panics. */
  method NewHardlinkTracker(m: Merger, base: map<FileId, Link>, remote: map<FileId, Link>,
                            local: map<FileId, Link>) returns (merged: map<FileId, Link>, ok: bool)
    ensures ok <==> forall f :: !LinkPanics(base, remote, local, f)
    ensures ok ==> merged == TrackerStart(m, base, remote, local)
  {
    var remoteEntries := RemoteEntries(remote);
    var localEntries;
    localEntries, ok := LocalEntries(m, base, remote, local);
    merged := remoteEntries + localEntries;
  }

  /** The second loop: local's entries, with the newest record, over remote's. */
  method LocalEntries(m: Merger, base: map<FileId, Link>, remote: map<FileId, Link>,
                      local: map<FileId, Link>) returns (merged: map<FileId, Link>, ok: bool)
    ensures ok <==> forall f :: !LinkPanics(base, remote, local, f)
    ensures ok ==> merged.Keys == local.Keys
    ensures ok ==> forall f :: f in merged ==> merged[f] == TrackerEntry(m, base, remote, local, f)
  {
    merged := map[];
    var todo := local.Keys;
    while todo != {}
      invariant todo <= local.Keys
      invariant merged.Keys == local.Keys - todo
      invariant forall f :: f in merged ==> merged[f] == TrackerEntry(m, base, remote, local, f)
      invariant forall f :: f in merged ==> !LinkPanics(base, remote, local, f)
      decreases |todo|
    {
      var f :| f in todo;
      if LinkPanics(base, remote, local, f) {
        return merged, false;
      }
      merged := merged[f := TrackerEntry(m, base, remote, local, f)];
      todo := todo - {f};
    }
    ok := true;
  }

  /** The first loop: remote's entries, to be counted during the merge. */
  method RemoteEntries(remote: map<FileId, Link>) returns (merged: map<FileId, Link>)
    ensures merged.Keys == remote.Keys
    ensures forall f :: f in merged ==> merged[f] == Link(remote[f].record, 0)
  {
    merged := map[];
    var todo := remote.Keys;
    while todo != {}
      invariant todo <= remote.Keys
      invariant merged.Keys == remote.Keys - todo
      invariant forall f :: f in merged ==> merged[f] == Link(remote[f].record, 0)
      decreases |todo|
    {
      var f :| f in todo;
      merged := merged[f := Link(remote[f].record, 0)];
      todo := todo - {f};
    }
  }

  /** filterDeadEntries: entries without legs go.  The assertion that no count is negative is the
      precondition. */
  method FilterDeadEntries(tracked: map<FileId, Link>) returns (live: map<FileId, Link>)
    requires forall f :: f in tracked ==> tracked[f].nlink >= 0
    ensures live == map f | f in tracked && tracked[f].nlink > 0 :: tracked[f]
  {
    live := tracked;
    var todo := tracked.Keys;
    while todo != {}
      invariant todo <= tracked.Keys
      invariant live == map f | f in tracked && (f in todo || tracked[f].nlink > 0) :: tracked[f]
      decreases |todo|
    {
      var f :| f in todo;
      if live[f].nlink <= 0 {
        assert live[f].nlink == 0;
        live := live - {f};
      }
      todo := todo - {f};
    }
  }

  ghost function MergedDir(m: Merger, base: Workspace, remote: Workspace, local: Workspace, skip: set<string>): Key {
    MergeDirectory(m, true, base.dir, remote.dir, local.dir, ZeroKey, skip)
  }

  /** The legs the merge fails to count for f: what it replaced or dropped without walking. */
  ghost function Drift(m: Merger, base: Workspace, remote: Workspace, local: Workspace, skip: set<string>,
                       f: FileId): int
  {
    DirectoryDrift(m, base.dir, remote.dir, local.dir, ZeroKey, skip, f)
  }

  /** The count that the tracker ends with. */
  ghost function FinalCount(m: Merger, base: Workspace, remote: Workspace, local: Workspace, skip: set<string>,
                            f: FileId): int
  {
    Count(local.links, f) + DirectoryChange(m, base.dir, remote.dir, local.dir, ZeroKey, skip, f)
  }

  /** The tracker after the merge: its entries with the counts it ends with. */
  ghost predicate IsTracked(m: Merger, base: Workspace, remote: Workspace, local: Workspace, skip: set<string>,
                            tracked: map<FileId, Link>)
  {
    && tracked.Keys == remote.links.Keys + local.links.Keys
    && forall f :: f in tracked ==>
         tracked[f] == TrackerEntry(m, base.links, remote.links, local.links, f)
                       .(nlink := FinalCount(m, base, remote, local, skip, f))
  }

  /** Some assertion fails up to the end of the walk: in a byte-level merge, or because the table lacks
      the entry of a leg. */
  ghost predicate WalkPanics(m: Merger, base: Workspace, remote: Workspace, local: Workspace, skip: set<string>) {
    || (exists f :: LinkPanics(base.links, remote.links, local.links, f))
    || !Checked(m, base.dir, remote.dir, local.dir, ZeroKey, skip, remote.links.Keys + local.links.Keys)
  }

  /** The part of mergeWorkspaceRoot that walks the trees; false if it panics. */
  method MergeRoots(m: Merger, base: Workspace, remote: Workspace, local: Workspace, skip: set<string>)
    returns (dir: Key, tracked: map<FileId, Link>, ok: bool)
    ensures ok <==> !WalkPanics(m, base, remote, local, skip)
    ensures ok ==> dir == MergedDir(m, base, remote, local, skip) && IsTracked(m, base, remote, local, skip, tracked)
  {
    hide Checked, Legs, MergeDirectory, DirectoryDrift, DirectoryChange, TrackerEntry, IsTracked, TrackerStart;
    dir := local.dir;
    tracked, ok := NewHardlinkTracker(m, base.links, remote.links, local.links);
    if !ok {
      return;
    }
    StartCounts(m, base.links, remote.links, local.links);
    var ht := new HardlinkTracker(map f | f in tracked :: tracked[f].nlink);
    assert ht.nlink.Keys == remote.links.Keys + local.links.Keys;
    dir, ok := MergeTree(m, base.dir, remote.dir, local.dir, ZeroKey, ht, skip);
    if !ok {
      return;
    }
    EndCounts(m, base, remote, local, skip, ht.nlink);
    tracked := map f | f in tracked :: tracked[f].(nlink := ht.nlink[f]);
  }

  /** The tracker starts with local's counts. */
  lemma StartCounts(m: Merger, base: map<FileId, Link>, remote: map<FileId, Link>, local: map<FileId, Link>)
    ensures var start := TrackerStart(m, base, remote, local);
      start.Keys == remote.Keys + local.Keys && forall f :: f in start ==> start[f].nlink == Count(local, f)
  {
    hide MergedLinkRecord;
  }

  lemma EndCounts(m: Merger, base: Workspace, remote: Workspace, local: Workspace, skip: set<string>,
                  counts: map<FileId, int>)
    requires counts.Keys == remote.links.Keys + local.links.Keys
    requires forall f :: f in counts ==> counts[f] == FinalCount(m, base, remote, local, skip, f)
    ensures var start := TrackerStart(m, base.links, remote.links, local.links);
      start.Keys == counts.Keys
      && IsTracked(m, base, remote, local, skip, map f | f in start :: start[f].(nlink := counts[f]))
  {
    hide TrackerEntry, FinalCount;
  }

  /** mergeWorkspaceRoot.  None stands for a panic, which panicRecovery turns into an error root. */
  method MergeWorkspaceRoot(m: Merger, base: Workspace, remote: Workspace, local: Workspace, skip: set<string>)
    returns (r: Option<Workspace>)
    ensures IsMerge(m, base, remote, local, skip, r)
  {
    var dir, tracked, ok := MergeRoots(m, base, remote, local, skip);
    hide WalkPanics;
    if !ok || exists f :: f in tracked && tracked[f].nlink < 0 {
      return None;
    }
    var live := FilterDeadEntries(tracked);
    r := Some(Workspace(live, dir));
  }

  /** The merge panics: in the walk, or because filterDeadEntries finds a negative count. */
  ghost predicate MergePanics(m: Merger, base: Workspace, remote: Workspace, local: Workspace, skip: set<string>) {
    || WalkPanics(m, base, remote, local, skip)
    || (exists f :: f in remote.links.Keys + local.links.Keys && FinalCount(m, base, remote, local, skip, f) < 0)
  }

  /** The outcome of a merge, with every count spelled out. */
  ghost predicate IsMerge(m: Merger, base: Workspace, remote: Workspace, local: Workspace, skip: set<string>,
                          r: Option<Workspace>)
  {
    && (r.None? <==> MergePanics(m, base, remote, local, skip))
    && (r.Some? ==>
          && r.value.dir == MergedDir(m, base, remote, local, skip)
          && (forall f :: f in r.value.links <==>
                f in remote.links.Keys + local.links.Keys && FinalCount(m, base, remote, local, skip, f) > 0)
          && (forall f :: f in r.value.links ==>
                r.value.links[f] == TrackerEntry(m, base.links, remote.links, local.links, f)
                                    .(nlink := FinalCount(m, base, remote, local, skip, f))))
  }

  // ---------------------------------------------------------------------------------------------
  // The records of hardlinked files

  /** The entry of a file has the record of that file. */
  predicate Keyed(links: map<FileId, Link>) {
    forall f :: f in links ==> links[f].record.fileId == f
  }

  /** One version of a file is like another, but for extended attributes; a key determines type and size. */
  predicate SameVersion(a: Record, b: Record) {
    a == b.(xattrs := a.xattrs)
  }

  predicate KeyDecides(a: Record, b: Record) {
    a.id == b.id ==> a.rtype == b.rtype && a.size == b.size
  }

  /** The record of a hardlinked file after a merge: of a file that one side has, that side's; of one that
      one side left as in the base, the other's; of one that both changed, the byte-level merge. */
  ghost predicate LinkIsMerged(p: Preference, base: Option<Record>, remote: Option<Record>, local: Option<Record>,
                               r: Record)
  {
    && (local.None? && remote.Some? ==> r == remote.value)
    && (remote.None? && local.Some? ==> r == local.value)
    && (remote.Some? && local.Some? && base.Some? && base.value.id != ZeroKey ==>
          && (remote == base && KeyDecides(local.value, base.value) ==> SameVersion(r, local.value))
          && (local == base && KeyDecides(remote.value, base.value) ==> SameVersion(r, remote.value)))
    && (remote.Some? && local.Some? && BothChanged(base, remote.value, local.value) ==>
          HoldsMerge(r, base, remote.value, local.value))
    && (remote.Some? && local.Some? && base.Some? ==> ThreeWayAttributes(base.value, remote.value, local.value, r))
    && (remote.Some? && local.Some? && base.None? ==>
          exists c :: && Preferred(p, remote.value, local.value, c) && Attributes(r) == Attributes(c)
                      && r.xattrs == c.xattrs && (remote.value.id == local.value.id ==> r == c))
  }

  lemma LinkRecordsAreMerged(m: Merger, base: Workspace, remote: Workspace, local: Workspace, skip: set<string>,
                             r: Workspace, f: FileId)
    requires Keyed(remote.links) && Keyed(local.links)
    requires IsMerge(m, base, remote, local, skip, Some(r)) && f in r.links
    ensures f in remote.links || f in local.links
    ensures LinkIsMerged(m.preference, RecordIn(base.links, f), RecordIn(remote.links, f), RecordIn(local.links, f),
                         r.links[f].record)
  {
    var entry := TrackerEntry(m, base.links, remote.links, local.links, f);
    assert r.links[f].record == entry.record;
    hide MergePanics, MergedDir, FinalCount;
    if f in remote.links && f in local.links {
      BothRecordsMerged(m, RecordIn(base.links, f), remote.links[f].record, local.links[f].record);
    }
  }

  lemma BothRecordsMerged(m: Merger, base: Option<Record>, remote: Record, local: Record)
    requires remote.fileId == local.fileId
    ensures var r := MergeFile(base, remote, local, m.MergeAttributes(base, remote, local));
      LinkIsMerged(m.preference, base, Some(remote), Some(local), r)
  {
    hide HoldsMerge, Attributes, MergeFile, Merger.MergeAttributes, ThreeWayAttributes, BothChanged;
    if BothChanged(base, remote, local) {
      FileHoldsMerge(base, remote, local, m.MergeAttributes(base, remote, local));
    }
    if base.Some? {
      OneSideChanged(m, base.value, remote, local);
    } else {
      NoBaseRecord(m, remote, local);
    }
  }

  lemma OneSideChanged(m: Merger, base: Record, remote: Record, local: Record)
    requires remote.fileId == local.fileId
    ensures var r := MergeFile(Some(base), remote, local, m.MergeAttributes(Some(base), remote, local));
      && ThreeWayAttributes(base, remote, local, r)
      && (base.id != ZeroKey && remote == base && KeyDecides(local, base) ==> SameVersion(r, local))
      && (base.id != ZeroKey && local == base && KeyDecides(remote, base) ==> SameVersion(r, remote))
  {
    AttributesAreThreeWay(m, base, remote, local);
  }

  lemma NoBaseRecord(m: Merger, remote: Record, local: Record)
    requires remote.fileId == local.fileId
    ensures var c := m.MergeAttributes(None, remote, local); var r := MergeFile(None, remote, local, c);
      && Preferred(m.preference, remote, local, c) && Attributes(r) == Attributes(c)
      && r.xattrs == c.xattrs && (remote.id == local.id ==> r == c)
  {
  }

  lemma {:induction false} KnownLegsMonotone(k: Key, ids: set<FileId>, wider: set<FileId>)
    requires KnownLegs(k, ids) && ids <= wider
    ensures KnownLegs(k, wider)
    decreases k
  {
    forall n | n in Entries(k) ensures KnownLeg(Entries(k)[n], wider) {
      assert KnownLeg(Entries(k)[n], ids);
      if Entries(k)[n].rtype.Directory? {
        KnownLegsMonotone(Entries(k)[n].id, ids, wider);
      }
    }
  }

  /** In a tree whose legs are all counted somewhere, every leg is known. */
  lemma {:induction false} CountedLegsAreKnown(k: Key, ids: set<FileId>)
    requires forall f {:trigger Legs(k, f)} :: Legs(k, f) > 0 ==> f in ids
    ensures KnownLegs(k, ids)
    decreases k
  {
    forall n | n in Entries(k) ensures KnownLeg(Entries(k)[n], ids) {
      var r := Entries(k)[n];
      forall f: FileId ensures LegsOf(r, f) > 0 ==> f in ids {
        OneNameAtMost(k, n, f);
      }
      if r.rtype.Hardlink? {
        assert LegsOf(r, r.fileId) == 1;
      }
      if r.rtype.Directory? {
        forall f {:trigger Legs(r.id, f)} ensures Legs(r.id, f) > 0 ==> f in ids {
          assert LegsOf(r, f) >= Legs(r.id, f);
        }
        CountedLegsAreKnown(r.id, ids);
      }
    }
  }

  lemma OneNameAtMost(k: Key, n: string, f: FileId)
    requires n in Entries(k)
    ensures LegsOf(Entries(k)[n], f) <= Legs(k, f)
  {
    forall x | x in Weights(k, f) ensures Weights(k, f)[x] >= 0 {
      LegsNonNegative(Entries(k)[x].id, f);
      assert Weights(k, f)[x] == LegsOf(Entries(k)[x], f);
    }
    SumNonNegative(Weights(k, f));
    assert Weights(k, f)[n] == LegsOf(Entries(k)[n], f);
  }

  lemma ConsistentLegsAreKnown(ws: Workspace)
    requires Consistent(ws)
    ensures KnownLegs(ws.dir, ws.links.Keys)
  {
    forall f {:trigger Legs(ws.dir, f)} ensures Legs(ws.dir, f) > 0 ==> f in ws.links.Keys {
      assert Count(ws.links, f) == Legs(ws.dir, f);
    }
    CountedLegsAreKnown(ws.dir, ws.links.Keys);
  }

  /** A merged tree has no legs but those of its two sides. */
  lemma {:induction false} MergedLegsAreKnown(m: Merger, base: Key, remote: Key, local: Key, premerged: Key,
                                              skip: set<string>, ids: set<FileId>)
    requires premerged == ZeroKey || premerged == remote || premerged == local
    requires KnownLegs(remote, ids) && KnownLegs(local, ids)
    ensures KnownLegs(MergeDirectory(m, true, base, remote, local, premerged, skip), ids)
    decreases local
  {
    if !Shortcut(base, remote, local, premerged) {
      var merged := MergedEntries(m, true, base, remote, local, skip);
      forall n | n in merged ensures KnownLeg(merged[n], ids) {
        assert merged[n] == MergeName(m, true, base, remote, local, skip, n);
        if Both(remote, local, skip, n) {
          MergedRecordIsKnown(m, Lookup(base, n), Entries(remote)[n], Entries(local)[n], ChildSkipPaths(skip, n), ids);
        }
      }
    }
  }

  lemma {:induction false} MergedRecordIsKnown(m: Merger, base: Option<Record>, remote: Record, local: Record,
                                               skip: set<string>, ids: set<FileId>)
    requires KnownLeg(remote, ids) && KnownLeg(local, ids)
    ensures KnownLeg(MergeRecord(m, true, base, remote, local, skip), ids)
    decreases local
  {
    if IsDeep(base, remote, local) {
      DeepAttributes(m, base, remote, local);
      var merged := m.MergeAttributes(base, remote, local);
      MergedLegsAreKnown(m, IdOf(base), remote.id, local.id, merged.id, skip, ids);
    } else {
      ShallowIsKnown(m, base, remote, local, ids);
    }
  }

  lemma ShallowIsKnown(m: Merger, base: Option<Record>, remote: Record, local: Record, ids: set<FileId>)
    requires KnownLeg(remote, ids) && KnownLeg(local, ids) && !IsDeep(base, remote, local)
    ensures KnownLeg(MergeShallow(m, base, remote, local), ids)
  {
    MergedLegIsOld(m, base, remote, local);
    var r := MergeShallow(m, base, remote, local);
    if r.rtype.Directory? {
      assert (r.id == remote.id && remote.rtype.Directory?) || (r.id == local.id && local.rtype.Directory?);
    }
  }

  // ---------------------------------------------------------------------------------------------
  // When the counts are right

  /** Uncounted legs are legs of the merged tree: no more of them come than there are. */
  lemma {:induction false} DriftWithinLegs(m: Merger, base: Key, remote: Key, local: Key, premerged: Key,
                                           skip: set<string>, f: FileId)
    ensures DirectoryDrift(m, base, remote, local, premerged, skip, f)
         <= Legs(MergeDirectory(m, true, base, remote, local, premerged, skip), f)
    decreases local, 2
  {
    LegsNonNegative(premerged, f);
    if !Shortcut(base, remote, local, premerged) {
      var d, w := DriftWeights(m, base, remote, local, skip, f), MergedWeights(m, base, remote, local, skip, f);
      forall n | n in d ensures d[n] <= w[n] {
        assert d[n] == NameDrift(m, base, remote, local, skip, n, f);
        assert w[n] == LegsOfOption(MergedOption(m, base, remote, local, skip, n), f);
        NameDriftWithinLegs(m, base, remote, local, skip, n, f);
      }
      SumMonotone(d, w);
      MergedWeightsSum(m, base, remote, local, premerged, skip, f);
    }
  }

  lemma {:induction false} NameDriftWithinLegs(m: Merger, base: Key, remote: Key, local: Key, skip: set<string>,
                                               n: string, f: FileId)
    requires n in AllNames(remote, local)
    ensures NameDrift(m, base, remote, local, skip, n, f)
         <= LegsOfOption(MergedOption(m, base, remote, local, skip, n), f)
    decreases local, 1
  {
    LegsOfBelow(Lookup(local, n), f);
    LegsOfBelow(Lookup(remote, n), f);
    if Both(remote, local, skip, n) {
      var b, r, l := Lookup(base, n), Entries(remote)[n], Entries(local)[n];
      assert n in MergedNames(base, remote, local);
      assert MergedOption(m, base, remote, local, skip, n)
          == Some(MergeRecord(m, true, b, r, l, ChildSkipPaths(skip, n)));
      if IsDeep(b, r, l) {
        DeepAttributes(m, b, r, l);
        DriftWithinLegs(m, IdOf(b), r.id, l.id, m.MergeAttributes(b, r, l).id, ChildSkipPaths(skip, n), f);
      } else {
        LegsOfBelow(Some(MergeShallow(m, b, r, l)), f);
      }
    }
  }

  lemma LegsOfBelow(r: Option<Record>, f: FileId)
    ensures LegsOfOption(r, f) >= Below(r, f) >= 0
  {
    if r.Some? {
      LegsNonNegative(r.value.id, f);
    }
  }

  /** From a local side that counts its legs no count ever ends below zero: the assertion in
      filterDeadEntries never fails. */
  lemma CountsStayPositive(m: Merger, base: Workspace, remote: Workspace, local: Workspace, skip: set<string>,
                           f: FileId)
    requires Consistent(local)
    ensures FinalCount(m, base, remote, local, skip, f)
         == Legs(MergedDir(m, base, remote, local, skip), f) - Drift(m, base, remote, local, skip, f) >= 0
  {
    assert Count(local.links, f) == Legs(local.dir, f);
    DriftWithinLegs(m, base.dir, remote.dir, local.dir, ZeroKey, skip, f);
  }

  /** A byte-level merge panics: of the contents of a hardlinked file, or of files in the trees. */
  ghost predicate BytesPanic(m: Merger, base: Workspace, remote: Workspace, local: Workspace, skip: set<string>) {
    || (exists f :: LinkPanics(base.links, remote.links, local.links, f))
    || FilesPanic(m, base.dir, remote.dir, local.dir, ZeroKey, skip)
  }

  /** A merge of consistent sides panics if and only if one of its byte-level merges does. */
  lemma ConsistentSidesMerge(m: Merger, base: Workspace, remote: Workspace, local: Workspace, skip: set<string>)
    requires Consistent(remote) && Consistent(local)
    ensures MergePanics(m, base, remote, local, skip) <==> BytesPanic(m, base, remote, local, skip)
  {
    var ids := remote.links.Keys + local.links.Keys;
    ConsistentLegsAreKnown(remote);
    ConsistentLegsAreKnown(local);
    KnownLegsMonotone(remote.dir, remote.links.Keys, ids);
    KnownLegsMonotone(local.dir, local.links.Keys, ids);
    KnownIsChecked(m, base.dir, remote.dir, local.dir, ZeroKey, skip, ids);
    hide Checked, FilesPanic, FinalCount, Consistent;
    forall f: FileId ensures FinalCount(m, base, remote, local, skip, f) >= 0 {
      CountsStayPositive(m, base, remote, local, skip, f);
    }
  }

  /** The merged workspace counts its legs correctly if and only if the merge left no uncounted legs
      behind in subtrees that it did not walk. */
  lemma ConsistentIffNoDrift(m: Merger, base: Workspace, remote: Workspace, local: Workspace, skip: set<string>,
                             r: Workspace)
    requires Consistent(remote) && Consistent(local)
    requires IsMerge(m, base, remote, local, skip, Some(r))
    ensures Consistent(r)
       <==> (forall f :: f in remote.links.Keys + local.links.Keys ==> Drift(m, base, remote, local, skip, f) == 0)
  {
    var ids := remote.links.Keys + local.links.Keys;
    var dir := MergedDir(m, base, remote, local, skip);
    MergedKnown(m, base, remote, local, skip);
    forall f: FileId
      ensures Count(r.links, f) == if f in ids then Legs(dir, f) - Drift(m, base, remote, local, skip, f) else 0
      ensures f !in ids ==> Legs(dir, f) == 0
    {
      CountsStayPositive(m, base, remote, local, skip, f);
      if f !in ids {
        UnknownHasNoLegs(dir, ids, f);
      }
    }
    if Consistent(r) {
      forall f | f in ids ensures Drift(m, base, remote, local, skip, f) == 0 {
        assert Count(r.links, f) == Legs(r.dir, f);
      }
    }
  }

  /** The legs of a tree merged from consistent sides are known to one of them. */
  lemma MergedKnown(m: Merger, base: Workspace, remote: Workspace, local: Workspace, skip: set<string>)
    requires Consistent(remote) && Consistent(local)
    ensures KnownLegs(MergedDir(m, base, remote, local, skip), remote.links.Keys + local.links.Keys)
  {
    var ids := remote.links.Keys + local.links.Keys;
    ConsistentLegsAreKnown(remote);
    ConsistentLegsAreKnown(local);
    KnownLegsMonotone(remote.dir, remote.links.Keys, ids);
    KnownLegsMonotone(local.dir, local.links.Keys, ids);
    MergedLegsAreKnown(m, base.dir, remote.dir, local.dir, ZeroKey, skip, ids);
  }

  /** A structural guarantee of no drift: wherever the merge does not descend, neither the record it
      takes nor the one it drops is a directory with legs below. */
  ghost predicate Walked(m: Merger, base: Key, remote: Key, local: Key, premerged: Key, skip: set<string>)
    decreases local, 2
  {
    Shortcut(base, remote, local, premerged) ||
    forall n :: n in Entries(local) ==>
      (if Both(remote, local, skip, n) then
        WalkedRecord(m, Lookup(base, n), Entries(remote)[n], Entries(local)[n], ChildSkipPaths(skip, n))
       else n in Entries(base) && n !in Entries(remote) ==> NoLegsBelow(Entries(local)[n]))
  }

  ghost predicate WalkedRecord(m: Merger, base: Option<Record>, remote: Record, local: Record, skip: set<string>)
    decreases local, 1
  {
    if IsDeep(base, remote, local) then
      Walked(m, IdOf(base), remote.id, local.id, m.MergeAttributes(base, remote, local).id, skip)
    else
      NoLegsBelow(local) && NoLegsBelow(MergeShallow(m, base, remote, local))
  }

  ghost predicate NoLegsBelow(r: Record) {
    r.rtype.Directory? ==> KnownLegs(r.id, {})
  }

  lemma {:induction false} WalkedHasNoDrift(m: Merger, base: Key, remote: Key, local: Key, premerged: Key,
                                            skip: set<string>, f: FileId)
    requires Walked(m, base, remote, local, premerged, skip)
    ensures DirectoryDrift(m, base, remote, local, premerged, skip, f) == 0
    decreases local, 2
  {
    if !Shortcut(base, remote, local, premerged) {
      var w := DriftWeights(m, base, remote, local, skip, f);
      forall n | n in w ensures w[n] == 0 {
        assert w[n] == NameDrift(m, base, remote, local, skip, n, f);
        if Both(remote, local, skip, n) {
          WalkedRecordHasNoDrift(m, Lookup(base, n), Entries(remote)[n], Entries(local)[n], ChildSkipPaths(skip, n), f);
        } else if n in Entries(local) && n in Entries(base) && n !in Entries(remote) {
          NothingBelow(Entries(local)[n], f);
        }
      }
      SumZero(w);
    }
  }

  lemma NothingBelow(r: Record, f: FileId)
    requires NoLegsBelow(r)
    ensures Below(Some(r), f) == 0
  {
    if r.rtype.Directory? {
      UnknownHasNoLegs(r.id, {}, f);
    }
  }

  lemma {:induction false} WalkedRecordHasNoDrift(m: Merger, base: Option<Record>, remote: Record, local: Record,
                                                  skip: set<string>, f: FileId)
    requires WalkedRecord(m, base, remote, local, skip)
    ensures RecordDrift(m, base, remote, local, skip, f) == 0
    decreases local, 1
  {
    if IsDeep(base, remote, local) {
      WalkedHasNoDrift(m, IdOf(base), remote.id, local.id, m.MergeAttributes(base, remote, local).id, skip, f);
    } else {
      NothingBelow(local, f);
      NothingBelow(MergeShallow(m, base, remote, local), f);
    }
  }

  // ---------------------------------------------------------------------------------------------
  // The two ways in which the code does miscount

  function LegRecord(f: FileId): Record {
    Record(Hardlink, EmbeddedKey, 0, 0, 0, 0, 0, 1, 1, f)
  }

  function DirRecord(entries: map<string, Record>, f: FileId): Record {
    Record(Directory, DirKey(entries), |entries|, 0, 0, 0, 0, 1, 1, f)
  }

  function PlainFile(f: FileId): Record {
    Record(SmallFile, DataKey(SmallFile, Blocks([], 0)), 0, 0, 0, 0, 0, 1, 1, f)
  }

  lemma LegsOfSingleton(n: string, r: Record, f: FileId)
    ensures Legs(DirKey(map[n := r]), f) == LegsOf(r, f)
  {
    var k := DirKey(map[n := r]);
    SumExtract(Weights(k, f), n);
    assert Weights(k, f) - {n} == map[];
  }

  /** A directory "d" that holds one leg of file 7. */
  function OneLeg(d: FileId): Key {
    DirKey(map["d" := DirRecord(map["x" := LegRecord(7)], d)])
  }

  function OneLink(): map<FileId, Link> {
    map[7 := Link(PlainFile(7), 1)]
  }

  lemma OneLegCounts(d: FileId, f: FileId)
    ensures Legs(OneLeg(d), f) == if f == 7 then 1 else 0
  {
    LegsOfSingleton("x", LegRecord(7), f);
    LegsOfSingleton("d", DirRecord(map["x" := LegRecord(7)], d), f);
  }

  lemma NoLegCounts(file: FileId, f: FileId)
    ensures Legs(DirKey(map[]), f) == 0 && Legs(DirKey(map["d" := PlainFile(file)]), f) == 0
  {
    assert Weights(DirKey(map[]), f) == map[];
    LegsOfSingleton("d", PlainFile(file), f);
  }

  lemma OneLegIsConsistent(d: FileId)
    ensures Consistent(Workspace(OneLink(), OneLeg(d))) && !Consistent(Workspace(map[], OneLeg(d)))
  {
    forall f: FileId ensures Count(OneLink(), f) == Legs(OneLeg(d), f) {
      OneLegCounts(d, f);
    }
    OneLegCounts(d, 7);
    assert Count(map[], 7) != Legs(OneLeg(d), 7);
  }

  lemma NoLegIsConsistent(file: FileId)
    ensures Consistent(Workspace(map[], DirKey(map[])))
    ensures Consistent(Workspace(map[], DirKey(map["d" := PlainFile(file)])))
    ensures !Consistent(Workspace(OneLink(), DirKey(map[])))
  {
    forall f: FileId ensures Legs(DirKey(map[]), f) == 0 == Legs(DirKey(map["d" := PlainFile(file)]), f) {
      NoLegCounts(file, f);
    }
    assert Count(OneLink(), 7) != Legs(DirKey(map[]), 7);
  }

  lemma DeletedIsMerged(m: Merger)
    ensures var full, empty := OneLeg(3), DirKey(map[]);
            && MergeDirectory(m, true, full, empty, full, ZeroKey, {}) == empty
            && Checked(m, full, empty, full, ZeroKey, {}, {7})
  {
    assert MergedEntries(m, true, OneLeg(3), DirKey(map[]), OneLeg(3), {}) == map[];
  }

  lemma DeletedDrift(m: Merger)
    ensures var full, empty := OneLeg(3), DirKey(map[]);
            && MergeDirectory(m, true, full, empty, full, ZeroKey, {}) == empty
            && DirectoryDrift(m, full, empty, full, ZeroKey, {}, 7) == -1
            && Checked(m, full, empty, full, ZeroKey, {}, {7})
  {
    DeletedIsMerged(m);
    var full, empty := OneLeg(3), DirKey(map[]);
    LegsOfSingleton("x", LegRecord(7), 7);
    hide MergeDirectory, MergedEntries, Checked, CheckedName;
    var w := DriftWeights(m, full, empty, full, {}, 7);
    assert w.Keys == {"d"} && w["d"] == NameDrift(m, full, empty, full, {}, "d", 7);
    SumExtract(w, "d");
    assert w - {"d"} == map[];
  }

  lemma ReplacedDrift(m: Merger)
    ensures var before, after := DirKey(map["d" := PlainFile(3)]), OneLeg(4);
            && MergeDirectory(m, true, before, after, before, ZeroKey, {}) == after
            && DirectoryDrift(m, before, after, before, ZeroKey, {}, 7) == 1
            && Checked(m, before, after, before, ZeroKey, {}, {7})
  {
    var file, dir := PlainFile(3), DirRecord(map["x" := LegRecord(7)], 4);
    ReplacedRecord(m, file, dir, ChildSkipPaths({}, "d"));
    hide MergeRecord, RecordDrift, Checked, MergeDirectory, DirectoryDrift;
    OneNameMerge(m, "d", file, dir, 7);
    ReplacedIsChecked(m, file, dir);
  }

  lemma ReplacedRecord(m: Merger, file: Record, dir: Record, skip: set<string>)
    requires file == PlainFile(3) && dir == DirRecord(map["x" := LegRecord(7)], 4)
    ensures MergeRecord(m, true, Some(file), dir, file, skip) == dir
    ensures RecordDrift(m, Some(file), dir, file, skip, 7) == 1
  {
    LegsOfSingleton("x", LegRecord(7), 7);
  }

  /** The outcome of a merge where only file 7 has links, on one side. */
  lemma OneLinkMerge(m: Merger, base: Workspace, remote: Workspace, local: Workspace, r: Workspace)
    requires (remote.links, local.links) == (OneLink(), map[]) || (remote.links, local.links) == (map[], OneLink())
    requires Checked(m, base.dir, remote.dir, local.dir, ZeroKey, {}, {7})
    requires r.dir == MergedDir(m, base, remote, local, {})
    requires var n := FinalCount(m, base, remote, local, {}, 7);
             n >= 0 && r.links == if n == 0 then map[] else map[7 := Link(PlainFile(7), n)]
    ensures IsMerge(m, base, remote, local, {}, Some(r))
  {
    hide Checked, FinalCount, MergedDir;
    assert remote.links.Keys + local.links.Keys == {7};
  }

  /** Remote deletes a directory that holds a leg: from consistent sides comes a root whose table keeps
      the count although the leg is gone. */
  lemma DeletedDirectoryKeepsCount(m: Merger)
    ensures var full, empty := Workspace(OneLink(), OneLeg(3)), Workspace(map[], DirKey(map[]));
            var bad := Workspace(OneLink(), DirKey(map[]));
            && Consistent(full) && Consistent(empty)
            && IsMerge(m, full, empty, full, {}, Some(bad)) && !Consistent(bad)
  {
    var full, empty := Workspace(OneLink(), OneLeg(3)), Workspace(map[], DirKey(map[]));
    OneLegIsConsistent(3);
    NoLegIsConsistent(3);
    DeletedDrift(m);
    OneLegCounts(3, 7);
    NoLegCounts(3, 7);
    assert FinalCount(m, full, empty, full, {}, 7) == 1;
    hide FinalCount, Legs, DirectoryDrift, MergeDirectory, Consistent, Checked;
    OneLinkMerge(m, full, empty, full, Workspace(OneLink(), DirKey(map[])));
  }

  /** Remote replaces a file by a directory that holds a leg: from consistent sides comes a root that
      has the leg but no table entry for it. */
  lemma ReplacedByDirectoryDropsCount(m: Merger)
    ensures var before, after := Workspace(map[], DirKey(map["d" := PlainFile(3)])), Workspace(OneLink(), OneLeg(4));
            var bad := Workspace(map[], OneLeg(4));
            && Consistent(before) && Consistent(after)
            && IsMerge(m, before, after, before, {}, Some(bad)) && !Consistent(bad)
  {
    var before, after := Workspace(map[], DirKey(map["d" := PlainFile(3)])), Workspace(OneLink(), OneLeg(4));
    OneLegIsConsistent(4);
    NoLegIsConsistent(3);
    ReplacedDrift(m);
    OneLegCounts(4, 7);
    NoLegCounts(3, 7);
    assert FinalCount(m, before, after, before, {}, 7) == 0;
    hide FinalCount, Legs, DirectoryDrift, MergeDirectory, Consistent, Checked;
    OneLinkMerge(m, before, after, before, Workspace(map[], OneLeg(4)));
  }

  lemma ReplacedIsChecked(m: Merger, file: Record, dir: Record)
    requires file.rtype.SmallFile? && dir.rtype.Directory?
    requires MergeRecord(m, true, Some(file), dir, file, ChildSkipPaths({}, "d")) == dir
    ensures var before, after := DirKey(map["d" := file]), DirKey(map["d" := dir]);
            Checked(m, before, after, before, ZeroKey, {}, {7})
  {
    var before, after := DirKey(map["d" := file]), DirKey(map["d" := dir]);
    assert CheckedName(m, before, after, before, {}, "d", {7});
  }

  /** The merge of two directories with one and the same name in them, unchanged locally. */
  lemma OneNameMerge(m: Merger, n: string, local: Record, remote: Record, f: FileId)
    ensures var before, after := DirKey(map[n := local]), DirKey(map[n := remote]);
            var skip := ChildSkipPaths({}, n);
            && MergeDirectory(m, true, before, after, before, ZeroKey, {})
               == DirKey(map[n := MergeRecord(m, true, Some(local), remote, local, skip)])
            && DirectoryDrift(m, before, after, before, ZeroKey, {}, f)
               == RecordDrift(m, Some(local), remote, local, skip, f)
  {
    hide MergeRecord, RecordDrift;
    var before, after := DirKey(map[n := local]), DirKey(map[n := remote]);
    assert MergedNames(before, after, before) == {n};
    assert MergeName(m, true, before, after, before, {}, n)
        == MergeRecord(m, true, Some(local), remote, local, ChildSkipPaths({}, n));
    assert MergedEntries(m, true, before, after, before, {})
        == map[n := MergeRecord(m, true, Some(local), remote, local, ChildSkipPaths({}, n))];
    var w := DriftWeights(m, before, after, before, {}, f);
    assert w.Keys == {n};
    assert w[n] == NameDrift(m, before, after, before, {}, n, f)
                == RecordDrift(m, Some(local), remote, local, ChildSkipPaths({}, n), f);
    SumExtract(w, n);
    assert w - {n} == map[];
  }
}
