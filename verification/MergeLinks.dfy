/** Hardlink counting during a merge (hardlinkTracker in daemon/merge.go).

    The tracker starts from local's counts and corrects them only where the merge departs from
    local.  The exact law, for all inputs, is

      tracked after == tracked before + legs(merged) - legs(local) - drift

    where the drift sums the legs below directories that the merge replaces or deletes without
    walking them. */
module MergeLinks {
  import opened Basics
  import opened Objects
  import opened TreeMerge
  import opened Sums

  /** 1 when the record itself is a leg of f. */
  function Top(r: Option<Record>, f: FileId): int {
    if r.Some? && r.value.rtype.Hardlink? && r.value.fileId == f then 1 else 0
  }

  /** The number of legs of f in a record: itself, or everything below a directory. */
  ghost function LegsOf(r: Record, f: FileId): int
    decreases r, 1
  {
    Top(Some(r), f) + if r.rtype.Directory? then Legs(r.id, f) else 0
  }

  /** The number of legs of f in a directory tree. */
  ghost function Legs(k: Key, f: FileId): int
    decreases k, 1
  {
    Sum(Weights(k, f))
  }

  /** The legs of f by name. */
  ghost function Weights(k: Key, f: FileId): map<string, int>
    decreases k, 0
  {
    map n | n in Entries(k) :: LegsOf(Entries(k)[n], f)
  }

  ghost function Below(r: Option<Record>, f: FileId): int {
    if r.Some? && r.value.rtype.Directory? then Legs(r.value.id, f) else 0
  }

  ghost function LegsOfOption(r: Option<Record>, f: FileId): int {
    if r.Some? then LegsOf(r.value, f) else 0
  }

  lemma {:induction false} LegsNonNegative(k: Key, f: FileId)
    ensures Legs(k, f) >= 0
    decreases k
  {
    var weights := Weights(k, f);
    forall n | n in weights ensures weights[n] >= 0 {
      assert weights[n] == LegsOf(Entries(k)[n], f);
      LegsNonNegative(Entries(k)[n].id, f);
    }
    SumNonNegative(weights);
  }

  /** Every leg in the tree belongs to one of the given file ids. */
  ghost predicate KnownLegs(k: Key, ids: set<FileId>)
    decreases k, 0
  {
    forall n :: n in Entries(k) ==> KnownLeg(Entries(k)[n], ids)
  }

  ghost predicate KnownLeg(r: Record, ids: set<FileId>)
    decreases r, 1
  {
    (r.rtype.Hardlink? ==> r.fileId in ids) && (r.rtype.Directory? ==> KnownLegs(r.id, ids))
  }

  lemma {:induction false} UnknownHasNoLegs(k: Key, ids: set<FileId>, f: FileId)
    requires KnownLegs(k, ids) && f !in ids
    ensures Legs(k, f) == 0
    decreases k
  {
    var weights := Weights(k, f);
    forall n | n in weights ensures weights[n] == 0 {
      assert weights[n] == LegsOf(Entries(k)[n], f);
      var r := Entries(k)[n];
      assert KnownLeg(r, ids);
      if r.rtype.Directory? {
        UnknownHasNoLegs(r.id, ids, f);
      }
    }
    SumZero(weights);
  }

  // ---------------------------------------------------------------------------------------------
  // The drift: legs that come or go in subtrees the merge does not walk

  ghost function RecordDrift(m: Merger, base: Option<Record>, remote: Record, local: Record,
                             skip: set<string>, f: FileId): int
    decreases local, 1
  {
    if IsDeep(base, remote, local) then
      DirectoryDrift(m, IdOf(base), remote.id, local.id, m.MergeAttributes(base, remote, local).id, skip, f)
    else
      Below(Some(MergeShallow(m, base, remote, local)), f) - Below(Some(local), f)
  }

  ghost function NameDrift(m: Merger, base: Key, remote: Key, local: Key, skip: set<string>,
                           n: string, f: FileId): int
    decreases local, 2
  {
    if Both(remote, local, skip, n) then
      RecordDrift(m, Lookup(base, n), Entries(remote)[n], Entries(local)[n], ChildSkipPaths(skip, n), f)
    else if n in Entries(local) && n in Entries(base) && n !in Entries(remote) then
      -Below(Lookup(local, n), f)
    else 0
  }

  function AllNames(remote: Key, local: Key): set<string> {
    Entries(remote).Keys + Entries(local).Keys
  }

  ghost function DirectoryDrift(m: Merger, base: Key, remote: Key, local: Key, premerged: Key,
                                skip: set<string>, f: FileId): int
    decreases local, 4
  {
    if Shortcut(base, remote, local, premerged) then 0
    else Sum(DriftWeights(m, base, remote, local, skip, f))
  }

  ghost function DriftWeights(m: Merger, base: Key, remote: Key, local: Key, skip: set<string>, f: FileId)
    : map<string, int>
    decreases local, 3
  {
    map n | n in AllNames(remote, local) :: NameDrift(m, base, remote, local, skip, n, f)
  }

  /** The net correction that the tracker receives for one name. */
  ghost function NameChange(m: Merger, base: Key, remote: Key, local: Key, skip: set<string>,
                            n: string, f: FileId): int
  {
    LegsOfOption(MergedOption(m, base, remote, local, skip, n), f)
    - LegsOfOption(Lookup(local, n), f)
    - NameDrift(m, base, remote, local, skip, n, f)
  }

  /** The merged record of a name, if the name survives. */
  function MergedOption(m: Merger, base: Key, remote: Key, local: Key, skip: set<string>, n: string): Option<Record> {
    if n in MergedNames(base, remote, local) then Some(MergeName(m, true, base, remote, local, skip, n)) else None
  }

  /** The net correction for a whole directory. */
  ghost function DirectoryChange(m: Merger, base: Key, remote: Key, local: Key, premerged: Key,
                                 skip: set<string>, f: FileId): int
  {
    Legs(MergeDirectory(m, true, base, remote, local, premerged, skip), f) - Legs(local, f)
    - DirectoryDrift(m, base, remote, local, premerged, skip, f)
  }

  ghost function MergedWeights(m: Merger, base: Key, remote: Key, local: Key, skip: set<string>, f: FileId)
    : map<string, int>
  {
    map n | n in AllNames(remote, local) :: LegsOfOption(MergedOption(m, base, remote, local, skip, n), f)
  }

  ghost function LocalWeights(remote: Key, local: Key, f: FileId): map<string, int> {
    map n | n in AllNames(remote, local) :: LegsOfOption(Lookup(local, n), f)
  }

  ghost function ChangeWeights(m: Merger, base: Key, remote: Key, local: Key, skip: set<string>, f: FileId)
    : map<string, int>
  {
    map n | n in AllNames(remote, local) :: NameChange(m, base, remote, local, skip, n, f)
  }

  lemma MergedWeightsSum(m: Merger, base: Key, remote: Key, local: Key, premerged: Key, skip: set<string>, f: FileId)
    requires !Shortcut(base, remote, local, premerged)
    ensures Sum(MergedWeights(m, base, remote, local, skip, f))
         == Legs(MergeDirectory(m, true, base, remote, local, premerged, skip), f)
  {
    LegsOfPadded(MergedEntries(m, true, base, remote, local, skip), MergedWeights(m, base, remote, local, skip, f), f);
  }

  /** The legs of a directory, summed over more names than it has. */
  lemma LegsOfPadded(entries: map<string, Record>, wide: map<string, int>, f: FileId)
    requires entries.Keys <= wide.Keys
    requires forall n :: n in wide ==> wide[n] == if n in entries then LegsOf(entries[n], f) else 0
    ensures Sum(wide) == Legs(DirKey(entries), f)
  {
    SumPad(Weights(DirKey(entries), f), wide);
  }

  lemma LocalWeightsSum(remote: Key, local: Key, f: FileId)
    ensures Sum(LocalWeights(remote, local, f)) == Legs(local, f)
  {
    SumPad(Weights(local, f), LocalWeights(remote, local, f));
  }

  /** A directory merged record by record is corrected by the sum over its names. */
  lemma ChangeIsSumOfNames(m: Merger, base: Key, remote: Key, local: Key, premerged: Key,
                           skip: set<string>, f: FileId)
    requires !Shortcut(base, remote, local, premerged)
    ensures DirectoryChange(m, base, remote, local, premerged, skip, f)
         == Sum(ChangeWeights(m, base, remote, local, skip, f))
  {
    MergedWeightsSum(m, base, remote, local, premerged, skip, f);
    LocalWeightsSum(remote, local, f);
    WeightsRelate(m, base, remote, local, skip, f);
    hide MergeDirectory, Legs, ChangeWeights, MergedWeights, LocalWeights, DriftWeights;
    SumLinear(ChangeWeights(m, base, remote, local, skip, f), MergedWeights(m, base, remote, local, skip, f),
              LocalWeights(remote, local, f), DriftWeights(m, base, remote, local, skip, f));
  }

  lemma WeightsRelate(m: Merger, base: Key, remote: Key, local: Key, skip: set<string>, f: FileId)
    ensures var c, w := ChangeWeights(m, base, remote, local, skip, f), MergedWeights(m, base, remote, local, skip, f);
      var l, d := LocalWeights(remote, local, f), DriftWeights(m, base, remote, local, skip, f);
      && c.Keys == w.Keys == l.Keys == d.Keys
      && forall n :: n in c ==> c[n] == w[n] - l[n] - d[n]
  {
    hide LegsOfOption, MergedOption, NameDrift;
  }

  // ---------------------------------------------------------------------------------------------
  // When the merge does not panic

  /** The tracker has an entry for the record, should it be a leg. */
  predicate TopKnown(r: Option<Record>, ids: set<FileId>) {
    r.Some? && r.value.rtype.Hardlink? ==> r.value.fileId in ids
  }

  /** Every leg that the merge of a directory asks the tracker about has an entry there, and no
      byte-level merge on the way panics. */
  ghost predicate Checked(m: Merger, base: Key, remote: Key, local: Key, premerged: Key, skip: set<string>,
                          ids: set<FileId>)
    decreases local, 4
  {
    if Shortcut(base, remote, local, premerged) then
      premerged == remote && remote != local ==> KnownLegs(remote, ids) && KnownLegs(local, ids)
    else
      forall n :: n in AllNames(remote, local) ==> CheckedName(m, base, remote, local, skip, n, ids)
  }

  ghost predicate CheckedName(m: Merger, base: Key, remote: Key, local: Key, skip: set<string>, n: string,
                              ids: set<FileId>)
    decreases local, 3
  {
    if Both(remote, local, skip, n) then
      var b, r, l := Lookup(base, n), Entries(remote)[n], Entries(local)[n];
      && CheckedRecord(m, b, r, l, ChildSkipPaths(skip, n), ids)
      && TopKnown(Some(l), ids) && TopKnown(Some(MergeRecord(m, true, b, r, l, ChildSkipPaths(skip, n))), ids)
    else if n in Entries(remote) then
      n !in Entries(local) && n !in Entries(base) ==> KnownLeg(Entries(remote)[n], ids)
    else
      n in Entries(base) ==> TopKnown(Lookup(local, n), ids)
  }

  ghost predicate CheckedRecord(m: Merger, base: Option<Record>, remote: Record, local: Record, skip: set<string>,
                                ids: set<FileId>)
    decreases local, 2
  {
    if IsDeep(base, remote, local) then
      Checked(m, IdOf(base), remote.id, local.id, m.MergeAttributes(base, remote, local).id, skip, ids)
    else !FilePanics(base, remote, local)
  }

  // ---------------------------------------------------------------------------------------------
  // The tracker and the merge that drives it

  /** hardlinkTracker: the link counts, by file id. */
  class HardlinkTracker {
    var nlink: map<FileId, int>

    constructor (counts: map<FileId, int>)
      ensures nlink == counts
    {
      nlink := counts;
    }

    /** checkLinkChanged: one leg more for the final record, one less for the local one; false if an
        entry is missing, which panics. */
    method CheckLinkChanged(local: Option<Record>, final: Option<Record>) returns (ok: bool)
      modifies this
      ensures nlink.Keys == old(nlink.Keys)
      ensures ok <==> TopKnown(local, nlink.Keys) && TopKnown(final, nlink.Keys)
      ensures ok ==> forall f :: f in nlink ==> nlink[f] == old(nlink[f]) + Top(final, f) - Top(local, f)
    {
      if final.Some? && final.value.rtype.Hardlink? {
        if final.value.fileId !in nlink {
          return false;
        }
        nlink := nlink[final.value.fileId := nlink[final.value.fileId] + 1];
      }
      if local.Some? && local.value.rtype.Hardlink? {
        if local.value.fileId !in nlink {
          return false;
        }
        nlink := nlink[local.value.fileId := nlink[local.value.fileId] - 1];
      }
      return true;
    }

    /** The visitor of traverseSubtree on one record: the subtree first, then the record itself. */
    method Visit(r: Record, add: bool) returns (ok: bool)
      modifies this
      ensures nlink.Keys == old(nlink.Keys)
      ensures ok <==> KnownLeg(r, nlink.Keys)
      ensures ok ==> forall f :: f in nlink ==> nlink[f] == old(nlink[f]) + Signed(add, LegsOf(r, f))
      decreases r, 1
    {
      if r.rtype.Directory? {
        ok := TraverseSubtree(r.id, add);
        if !ok {
          return;
        }
      }
      ok := CheckLinkChanged(if add then None else Some(r), if add then Some(r) else None);
    }

    /** traverseSubtree, over the records in any order: every leg below `key` is added or removed. */
    method TraverseSubtree(key: Key, add: bool) returns (ok: bool)
      modifies this
      ensures nlink.Keys == old(nlink.Keys)
      ensures ok <==> KnownLegs(key, nlink.Keys)
      ensures ok ==> forall f :: f in nlink ==> nlink[f] == old(nlink[f]) + Signed(add, Legs(key, f))
      decreases key, 0
    {
      var todo := Entries(key).Keys;
      ghost var ids := nlink.Keys;
      forall f: FileId {
        NothingVisited(key, f);
      }
      while todo != {}
        invariant todo <= Entries(key).Keys
        invariant nlink.Keys == ids
        invariant forall n :: n in Entries(key) && n !in todo ==> KnownLeg(Entries(key)[n], ids)
        invariant forall f :: f in nlink ==> nlink[f] == old(nlink[f]) + Signed(add, VisitedLegs(key, todo, f))
        decreases |todo|
      {
        var name :| name in todo;
        ok := Visit(Entries(key)[name], add);
        if !ok {
          return;
        }
        forall f: FileId {
          VisitedLegsStep(key, todo, name, f);
        }
        todo := todo - {name};
      }
      return true;
    }
  }

  function Signed(add: bool, x: int): int {
    if add then x else -x
  }

  /** The legs of f in the records already visited, those outside `todo`. */
  ghost function VisitedLegs(k: Key, todo: set<string>, f: FileId): int {
    Legs(k, f) - Sum(WeightsIn(k, todo, f))
  }

  ghost function WeightsIn(k: Key, names: set<string>, f: FileId): map<string, int> {
    map n | n in names && n in Entries(k) :: LegsOf(Entries(k)[n], f)
  }

  lemma VisitedLegsStep(k: Key, todo: set<string>, name: string, f: FileId)
    requires name in Entries(k) && name in todo
    ensures VisitedLegs(k, todo - {name}, f) == VisitedLegs(k, todo, f) + LegsOf(Entries(k)[name], f)
  {
    SumExtract(WeightsIn(k, todo, f), name);
    assert WeightsIn(k, todo, f) - {name} == WeightsIn(k, todo - {name}, f);
  }

  lemma NothingVisited(k: Key, f: FileId)
    ensures VisitedLegs(k, Entries(k).Keys, f) == 0
    ensures VisitedLegs(k, {}, f) == Legs(k, f)
  {
    assert WeightsIn(k, Entries(k).Keys, f) == Weights(k, f);
  }

  // ---------------------------------------------------------------------------------------------
  // The merge itself, updating the tracker as it goes

  /** A merged record that is a leg was a leg on one of the two sides. */
  lemma MergedLegIsOld(m: Merger, base: Option<Record>, remote: Record, local: Record)
    requires !IsDeep(base, remote, local)
    ensures var r := MergeShallow(m, base, remote, local);
            r.rtype.Hardlink? ==> (r == remote || r == local)
  {
  }

  lemma DeepAttributes(m: Merger, base: Option<Record>, remote: Record, local: Record)
    requires IsDeep(base, remote, local)
    ensures var r := m.MergeAttributes(base, remote, local);
            r.rtype.Directory? && (r.id == remote.id || r.id == local.id)
  {
  }

  /** The correction made inside mergeRecord, before the caller compares the records themselves. */
  ghost function InnerChange(m: Merger, base: Option<Record>, remote: Record, local: Record,
                             skip: set<string>, f: FileId): int
  {
    if IsDeep(base, remote, local) then
      DirectoryChange(m, IdOf(base), remote.id, local.id, m.MergeAttributes(base, remote, local).id, skip, f)
    else 0
  }

  /** mergeRecord. */
  method MergeOneRecord(m: Merger, base: Option<Record>, remote: Record, local: Record,
                        ht: HardlinkTracker, skip: set<string>) returns (r: Record, ok: bool)
    modifies ht
    ensures ht.nlink.Keys == old(ht.nlink.Keys)
    ensures ok <==> CheckedRecord(m, base, remote, local, skip, ht.nlink.Keys)
    ensures ok ==> r == MergeRecord(m, true, base, remote, local, skip)
    ensures ok ==> forall f :: f in ht.nlink ==>
              ht.nlink[f] == old(ht.nlink[f]) + InnerChange(m, base, remote, local, skip, f)
    decreases local, 1
  {
    if IsDeep(base, remote, local) {
      DeepAttributes(m, base, remote, local);
      r := m.MergeAttributes(base, remote, local);
      var key;
      key, ok := MergeTree(m, IdOf(base), remote.id, local.id, r.id, ht, skip);
      r := r.(id := key);
    } else {
      r := MergeShallow(m, base, remote, local);
      ok := !FilePanics(base, remote, local);
    }
  }

  lemma RecordChange(m: Merger, base: Option<Record>, remote: Record, local: Record, skip: set<string>, f: FileId)
    ensures var r := MergeRecord(m, true, base, remote, local, skip);
            InnerChange(m, base, remote, local, skip, f) + Top(Some(r), f) - Top(Some(local), f)
            == LegsOf(r, f) - LegsOf(local, f) - RecordDrift(m, base, remote, local, skip, f)
  {
    if IsDeep(base, remote, local) {
      DeepAttributes(m, base, remote, local);
    }
  }

  /** The body of mergeDirectory's loop over the remote records, for one name. */
  method MergeRemoteName(m: Merger, base: Key, remote: Key, local: Key, ht: HardlinkTracker,
                         skip: set<string>, n: string) returns (r: Option<Record>, ok: bool)
    requires n in Entries(remote)
    modifies ht
    ensures ht.nlink.Keys == old(ht.nlink.Keys)
    ensures ok <==> CheckedName(m, base, remote, local, skip, n, ht.nlink.Keys)
    ensures ok ==> r == MergedOption(m, base, remote, local, skip, n)
    ensures ok ==> forall f :: f in ht.nlink ==>
              ht.nlink[f] == old(ht.nlink[f]) + NameChange(m, base, remote, local, skip, n, f)
    decreases local, 2
  {
    var remoteRecord := Entries(remote)[n];
    if n in Entries(local) {
      if n in skip {
        return Some(Entries(local)[n]), true;
      }
      var merged;
      merged, ok := MergeBoth(m, base, remote, local, ht, skip, n);
      r := Some(merged);
    } else if n !in Entries(base) {
      ok := ht.Visit(remoteRecord, true);
      r := Some(remoteRecord);
    } else {
      r, ok := None, true;
    }
  }

  /** The same, for a name that both sides have. */
  method MergeBoth(m: Merger, base: Key, remote: Key, local: Key, ht: HardlinkTracker,
                   skip: set<string>, n: string) returns (r: Record, ok: bool)
    requires Both(remote, local, skip, n)
    modifies ht
    ensures ht.nlink.Keys == old(ht.nlink.Keys)
    ensures ok <==> CheckedName(m, base, remote, local, skip, n, ht.nlink.Keys)
    ensures ok ==> Some(r) == MergedOption(m, base, remote, local, skip, n)
    ensures ok ==> forall f :: f in ht.nlink ==>
              ht.nlink[f] == old(ht.nlink[f]) + NameChange(m, base, remote, local, skip, n, f)
    decreases local, 2, 0
  {
    hide CheckedRecord, MergeRecord, InnerChange;
    var b, remoteRecord, localRecord := Lookup(base, n), Entries(remote)[n], Entries(local)[n];
    r, ok := MergeOneRecord(m, b, remoteRecord, localRecord, ht, ChildSkipPaths(skip, n));
    if ok {
      forall f: FileId {
        RecordChange(m, b, remoteRecord, localRecord, ChildSkipPaths(skip, n), f);
      }
      hide LegsOf, RecordDrift;
      ok := ht.CheckLinkChanged(Some(localRecord), Some(r));
    }
  }

  /** What the two loops of mergeDirectory work towards: from the records in `start` to those in
      `final`, and to the counts in `total`, with weights[f][n] the correction that name n makes to
      the count of f. */
  datatype Goal = Goal(start: map<string, Record>, final: map<string, Record>,
                       weights: map<FileId, map<string, int>>, total: map<FileId, int>)

  function Find(records: map<string, Record>, n: string): Option<Record> {
    if n in records then Some(records[n]) else None
  }

  /** The merged records are final for every name that is no longer pending and still local's for
      the rest, and the counts lack just what the pending names have to contribute. */
  ghost predicate InProgress(g: Goal, pending: set<string>, merged: map<string, Record>, nlink: map<FileId, int>) {
    && nlink.Keys == g.total.Keys == g.weights.Keys
    && (forall f {:trigger g.total[f]} :: f in g.total ==>
          g.total[f] == nlink[f] + Sum(Restrict(g.weights[f], pending)))
    && (forall n {:trigger Find(merged, n)} :: Find(merged, n) == Find(if n in pending then g.start else g.final, n))
  }

  /** One name done: its record is final and its correction is in the counts. */
  lemma ProgressStep(g: Goal, pending: set<string>, merged: map<string, Record>, merged': map<string, Record>,
                     nlink: map<FileId, int>, nlink': map<FileId, int>, n: string)
    requires InProgress(g, pending, merged, nlink)
    requires n in pending
    requires Find(merged', n) == Find(g.final, n)
    requires forall x :: x != n ==> Find(merged', x) == Find(merged, x)
    requires nlink'.Keys == nlink.Keys
    requires forall f :: f in nlink' ==> n in g.weights[f] && nlink'[f] == nlink[f] + g.weights[f][n]
    ensures InProgress(g, pending - {n}, merged', nlink')
  {
    forall f | f in g.total ensures g.total[f] == nlink'[f] + Sum(Restrict(g.weights[f], pending - {n})) {
      var w := g.weights[f];
      SumExtract(Restrict(w, pending), n);
      assert Restrict(w, pending) - {n} == Restrict(w, pending - {n});
    }
    forall x ensures Find(merged', x) == Find(if x in pending - {n} then g.start else g.final, x) {
      assert Find(merged, x) == Find(if x in pending then g.start else g.final, x);
    }
  }

  lemma ProgressKeys(g: Goal, pending: set<string>, merged: map<string, Record>, nlink: map<FileId, int>, n: string)
    requires InProgress(g, pending, merged, nlink)
    ensures nlink.Keys == g.total.Keys == g.weights.Keys
    ensures Find(merged, n) == Find(if n in pending then g.start else g.final, n)
  {
  }

  /** Names that carry no correction and keep their record may stay pending for ever. */
  lemma ProgressEnd(g: Goal, pending: set<string>, merged: map<string, Record>, nlink: map<FileId, int>)
    requires InProgress(g, pending, merged, nlink)
    requires forall f, n :: f in g.weights && n in pending && n in g.weights[f] ==> g.weights[f][n] == 0
    requires forall n :: n in pending ==> Find(g.start, n) == Find(g.final, n)
    ensures nlink == g.total && merged == g.final
  {
    forall f | f in g.total ensures nlink[f] == g.total[f] {
      SumZero(Restrict(g.weights[f], pending));
    }
    forall n: string ensures Find(merged, n) == Find(g.final, n) {
    }
    SameFinds(merged, g.final);
  }

  lemma SameFinds(a: map<string, Record>, b: map<string, Record>)
    requires forall n :: Find(a, n) == Find(b, n)
    ensures a == b
  {
    forall n: string
      ensures n in a <==> n in b
      ensures n in a && n in b ==> a[n] == b[n]
    {
      assert Find(a, n) == Find(b, n);
    }
  }

  lemma FindWithout(records: map<string, Record>, n: string)
    ensures Find(records - {n}, n) == None
    ensures forall x :: x != n ==> Find(records - {n}, x) == Find(records, x)
  {
  }

  /** The goal of one merge. */
  ghost predicate IsGoal(g: Goal, m: Merger, base: Key, remote: Key, local: Key, skip: set<string>) {
    && g.start == Entries(local)
    && g.final == MergedEntries(m, true, base, remote, local, skip)
    && (forall f :: f in g.weights ==> g.weights[f] == ChangeWeights(m, base, remote, local, skip, f))
  }

  lemma GoalWeight(g: Goal, m: Merger, base: Key, remote: Key, local: Key, skip: set<string>, n: string, f: FileId)
    requires IsGoal(g, m, base, remote, local, skip) && n in AllNames(remote, local) && f in g.weights
    ensures n in g.weights[f] && g.weights[f][n] == NameChange(m, base, remote, local, skip, n, f)
  {
  }

  lemma GoalWeights(g: Goal, m: Merger, base: Key, remote: Key, local: Key, skip: set<string>, n: string)
    requires IsGoal(g, m, base, remote, local, skip) && n in AllNames(remote, local)
    ensures forall f :: f in g.weights ==>
      n in g.weights[f] && g.weights[f][n] == NameChange(m, base, remote, local, skip, n, f)
  {
    forall f | f in g.weights {
      GoalWeight(g, m, base, remote, local, skip, n, f);
    }
  }

  /** A name that remote deleted takes just its own leg along. */
  lemma DroppedWeights(g: Goal, m: Merger, base: Key, remote: Key, local: Key, skip: set<string>, n: string)
    requires IsGoal(g, m, base, remote, local, skip)
    requires n in Entries(base) && n in Entries(local) && n !in Entries(remote)
    ensures Find(g.final, n) == None
    ensures forall f :: f in g.weights ==> n in g.weights[f] && g.weights[f][n] == -Top(Lookup(local, n), f)
  {
    forall f | f in g.weights ensures n in g.weights[f] && g.weights[f][n] == -Top(Lookup(local, n), f) {
      GoalWeight(g, m, base, remote, local, skip, n, f);
    }
  }

  lemma GoalRecord(g: Goal, m: Merger, base: Key, remote: Key, local: Key, skip: set<string>, n: string)
    requires IsGoal(g, m, base, remote, local, skip)
    ensures Find(g.start, n) == Lookup(local, n)
    ensures Find(g.final, n) == MergedOption(m, base, remote, local, skip, n)
    ensures n in Entries(remote) && Find(g.final, n).None? ==> Find(g.start, n).None?
  {
  }

  ghost function MakeGoal(m: Merger, base: Key, remote: Key, local: Key, premerged: Key, skip: set<string>,
                          nlink: map<FileId, int>): Goal
  {
    Goal(Entries(local), MergedEntries(m, true, base, remote, local, skip),
         map f | f in nlink :: ChangeWeights(m, base, remote, local, skip, f),
         map f | f in nlink :: nlink[f] + DirectoryChange(m, base, remote, local, premerged, skip, f))
  }

  lemma NotMerged(m: Merger, base: Key, remote: Key, local: Key, skip: set<string>, n: string)
    requires n !in AllNames(remote, local)
    ensures n !in MergedEntries(m, true, base, remote, local, skip) && n !in Entries(local)
  {
  }

  lemma GoalStart(m: Merger, base: Key, remote: Key, local: Key, premerged: Key, skip: set<string>,
                  nlink: map<FileId, int>)
    requires !Shortcut(base, remote, local, premerged)
    ensures var g := MakeGoal(m, base, remote, local, premerged, skip, nlink);
            && IsGoal(g, m, base, remote, local, skip)
            && InProgress(g, AllNames(remote, local), Entries(local), nlink)
  {
    hide DirectoryChange, NameChange, MergeRecord, MergedEntries, ChangeWeights, Find, Restrict, Sum, AllNames;
    var g := MakeGoal(m, base, remote, local, premerged, skip, nlink);
    forall f | f in nlink
      ensures g.total[f] == nlink[f] + Sum(Restrict(g.weights[f], AllNames(remote, local)))
    {
      AllWeights(m, base, remote, local, premerged, skip, f);
    }
    StartRecords(m, base, remote, local, skip, g);
  }

  lemma StartRecords(m: Merger, base: Key, remote: Key, local: Key, skip: set<string>, g: Goal)
    requires g.start == Entries(local) && g.final == MergedEntries(m, true, base, remote, local, skip)
    ensures forall n :: Find(Entries(local), n) == Find(if n in AllNames(remote, local) then g.start else g.final, n)
  {
    forall n ensures Find(Entries(local), n) == Find(if n in AllNames(remote, local) then g.start else g.final, n) {
      if n !in AllNames(remote, local) {
        NotMerged(m, base, remote, local, skip, n);
      }
    }
  }

  lemma AllWeights(m: Merger, base: Key, remote: Key, local: Key, premerged: Key, skip: set<string>, f: FileId)
    requires !Shortcut(base, remote, local, premerged)
    ensures Sum(Restrict(ChangeWeights(m, base, remote, local, skip, f), AllNames(remote, local)))
         == DirectoryChange(m, base, remote, local, premerged, skip, f)
  {
    hide DirectoryChange, NameChange;
    var w := ChangeWeights(m, base, remote, local, skip, f);
    assert Restrict(w, AllNames(remote, local)) == w;
    ChangeIsSumOfNames(m, base, remote, local, premerged, skip, f);
  }

  /** Names that only local has are kept as they are and need no correction. */
  lemma GoalEnd(g: Goal, m: Merger, base: Key, remote: Key, local: Key, skip: set<string>,
                pending: set<string>, merged: map<string, Record>, nlink: map<FileId, int>)
    requires IsGoal(g, m, base, remote, local, skip)
    requires pending == AllNames(remote, local) - Entries(remote).Keys - Entries(base).Keys
    requires InProgress(g, pending, merged, nlink)
    ensures nlink == g.total && merged == g.final
  {
    hide InProgress, IsGoal, Find;
    forall f, n | f in g.weights && n in pending && n in g.weights[f] ensures g.weights[f][n] == 0 {
      KeptWeight(g, m, base, remote, local, skip, n, f);
    }
    forall n | n in pending ensures Find(g.start, n) == Find(g.final, n) {
      KeptRecord(g, m, base, remote, local, skip, n);
    }
    ProgressEnd(g, pending, merged, nlink);
  }

  lemma KeptWeight(g: Goal, m: Merger, base: Key, remote: Key, local: Key, skip: set<string>, n: string, f: FileId)
    requires IsGoal(g, m, base, remote, local, skip) && f in g.weights && n in g.weights[f]
    requires n in Entries(local) && n !in Entries(remote) && n !in Entries(base)
    ensures g.weights[f][n] == 0
  {
    GoalWeight(g, m, base, remote, local, skip, n, f);
  }

  lemma KeptRecord(g: Goal, m: Merger, base: Key, remote: Key, local: Key, skip: set<string>, n: string)
    requires IsGoal(g, m, base, remote, local, skip)
    requires n in Entries(local) && n !in Entries(remote) && n !in Entries(base)
    ensures Find(g.start, n) == Find(g.final, n)
  {
    GoalRecord(g, m, base, remote, local, skip, n);
  }

  lemma FindUpdated(before: map<string, Record>, n: string, r: Option<Record>, merged: map<string, Record>)
    requires merged == if r.Some? then before[n := r.value] else before
    ensures Find(merged, n) == if r.Some? then r else Find(before, n)
    ensures forall x :: x != n ==> Find(merged, x) == Find(before, x)
  {
  }

  lemma RemoteProgress(g: Goal, m: Merger, base: Key, remote: Key, local: Key, skip: set<string>, pending: set<string>,
                       before: map<string, Record>, merged: map<string, Record>,
                       nlink: map<FileId, int>, nlink': map<FileId, int>, n: string)
    requires IsGoal(g, m, base, remote, local, skip) && InProgress(g, pending, before, nlink)
    requires n in pending && n in Entries(remote) && nlink'.Keys == nlink.Keys
    requires var r := MergedOption(m, base, remote, local, skip, n);
             merged == if r.Some? then before[n := r.value] else before
    requires forall f :: f in nlink' ==> nlink'[f] == nlink[f] + NameChange(m, base, remote, local, skip, n, f)
    ensures InProgress(g, pending - {n}, merged, nlink')
  {
    hide InProgress, IsGoal, NameChange, MergedOption, Find;
    FindUpdated(before, n, MergedOption(m, base, remote, local, skip, n), merged);
    ProgressKeys(g, pending, before, nlink, n);
    GoalRecord(g, m, base, remote, local, skip, n);
    GoalWeights(g, m, base, remote, local, skip, n);
    ProgressStep(g, pending, before, merged, nlink, nlink', n);
  }

  lemma DropProgress(g: Goal, m: Merger, base: Key, remote: Key, local: Key, skip: set<string>, pending: set<string>,
                     before: map<string, Record>, nlink: map<FileId, int>, nlink': map<FileId, int>, n: string)
    requires IsGoal(g, m, base, remote, local, skip) && InProgress(g, pending, before, nlink)
    requires n in pending && n in Entries(base) && n in Entries(local) && n !in Entries(remote)
    requires nlink'.Keys == nlink.Keys
    requires forall f :: f in nlink' ==> nlink'[f] == nlink[f] - Top(Lookup(local, n), f)
    ensures InProgress(g, pending - {n}, before - {n}, nlink')
  {
    hide InProgress, IsGoal, Top, Find;
    ProgressKeys(g, pending, before, nlink, n);
    DroppedWeights(g, m, base, remote, local, skip, n);
    FindWithout(before, n);
    ProgressStep(g, pending, before, before - {n}, nlink, nlink', n);
  }

  /** Without a shortcut the result is made up of the merged records. */
  lemma NoShortcut(m: Merger, base: Key, remote: Key, local: Key, premerged: Key, skip: set<string>,
                   nlink: map<FileId, int>, g: Goal)
    requires !Shortcut(base, remote, local, premerged)
    requires g == MakeGoal(m, base, remote, local, premerged, skip, nlink)
    ensures MergeDirectory(m, true, base, remote, local, premerged, skip) == DirKey(g.final)
    ensures g.total.Keys == nlink.Keys
    ensures forall f :: f in nlink ==>
      g.total[f] == nlink[f] + DirectoryChange(m, base, remote, local, premerged, skip, f)
  {
    hide DirectoryChange;
  }

  /** With a shortcut the counts change from local's to those of the chosen side. */
  lemma ShortcutChange(m: Merger, base: Key, remote: Key, local: Key, premerged: Key, skip: set<string>, f: FileId)
    requires Shortcut(base, remote, local, premerged)
    ensures DirectoryChange(m, base, remote, local, premerged, skip, f) == Legs(premerged, f) - Legs(local, f)
  {
  }

  method TakeShortcut(remote: Key, local: Key, premerged: Key, ht: HardlinkTracker) returns (ok: bool)
    requires premerged == remote || premerged == local
    modifies ht
    ensures ht.nlink.Keys == old(ht.nlink.Keys)
    ensures ok <==> (premerged == remote && remote != local ==>
                       KnownLegs(remote, ht.nlink.Keys) && KnownLegs(local, ht.nlink.Keys))
    ensures ok ==> forall f :: f in ht.nlink ==>
              ht.nlink[f] == old(ht.nlink[f]) + Legs(premerged, f) - Legs(local, f)
  {
    if premerged == remote && remote != local {
      ok := ht.TraverseSubtree(remote, true);
      if ok {
        ok := ht.TraverseSubtree(local, false);
      }
    } else {
      ok := true;
    }
  }

  /** mergeDirectory, visiting the remote and base records in any order; false if it panics. */
  method MergeTree(m: Merger, base: Key, remote: Key, local: Key, premerged: Key,
                   ht: HardlinkTracker, skip: set<string>) returns (key: Key, ok: bool)
    requires premerged == ZeroKey || premerged == remote || premerged == local
    modifies ht
    ensures ht.nlink.Keys == old(ht.nlink.Keys)
    ensures ok <==> Checked(m, base, remote, local, premerged, skip, ht.nlink.Keys)
    ensures ok ==> key == MergeDirectory(m, true, base, remote, local, premerged, skip)
    ensures ok ==> forall f :: f in ht.nlink ==>
              ht.nlink[f] == old(ht.nlink[f]) + DirectoryChange(m, base, remote, local, premerged, skip, f)
    decreases local, 5
  {
    hide DirectoryChange, KnownLegs, CheckedName;
    key := premerged;
    if premerged != ZeroKey && !NeedDeeperMergeId(base, remote, local) {
      forall f: FileId {
        ShortcutChange(m, base, remote, local, premerged, skip, f);
      }
      ok := TakeShortcut(remote, local, premerged, ht);
    } else {
      hide Checked, MergeDirectory;
      key, ok := MergeRecords(m, base, remote, local, premerged, ht, skip);
    }
  }

  /** mergeDirectory without a shortcut: the two loops. */
  method MergeRecords(m: Merger, base: Key, remote: Key, local: Key, ghost premerged: Key,
                      ht: HardlinkTracker, skip: set<string>) returns (key: Key, ok: bool)
    requires !Shortcut(base, remote, local, premerged)
    modifies ht
    ensures ht.nlink.Keys == old(ht.nlink.Keys)
    ensures ok <==> Checked(m, base, remote, local, premerged, skip, ht.nlink.Keys)
    ensures ok ==> key == MergeDirectory(m, true, base, remote, local, premerged, skip)
    ensures ok ==> forall f :: f in ht.nlink ==>
              ht.nlink[f] == old(ht.nlink[f]) + DirectoryChange(m, base, remote, local, premerged, skip, f)
    decreases local, 5, 0
  {
    hide InProgress, IsGoal, MakeGoal, DirectoryChange, KnownLegs, CheckedName, Checked, AllChecked, DropsChecked,
      MergeDirectory;
    key := ZeroKey;
    ghost var ids := ht.nlink.Keys;
    ghost var g := MakeGoal(m, base, remote, local, premerged, skip, ht.nlink);
    GoalStart(m, base, remote, local, premerged, skip, ht.nlink);
    NoShortcut(m, base, remote, local, premerged, skip, ht.nlink, g);
    CheckedParts(m, base, remote, local, premerged, skip, ids);
    var merged;
    merged, ok := MergeRemoteRecords(m, base, remote, local, ht, skip, Entries(local), AllNames(remote, local), g);
    if !ok {
      return;
    }
    merged, ok := DropDeleted(m, base, remote, local, ht, skip, merged,
                              AllNames(remote, local) - Entries(remote).Keys, g);
    if !ok {
      return;
    }
    GoalEnd(g, m, base, remote, local, skip,
            AllNames(remote, local) - Entries(remote).Keys - Entries(base).Keys, merged, ht.nlink);
    key := DirKey(merged);
  }

  ghost predicate AllChecked(m: Merger, base: Key, remote: Key, local: Key, skip: set<string>, names: set<string>,
                             ids: set<FileId>)
  {
    forall n :: n in names ==> CheckedName(m, base, remote, local, skip, n, ids)
  }

  ghost predicate DropsChecked(m: Merger, base: Key, remote: Key, local: Key, skip: set<string>, names: set<string>,
                               ids: set<FileId>)
  {
    forall n :: n in names && n !in Entries(remote) ==> CheckedName(m, base, remote, local, skip, n, ids)
  }

  /** The two loops check all there is to check. */
  lemma CheckedParts(m: Merger, base: Key, remote: Key, local: Key, premerged: Key, skip: set<string>, ids: set<FileId>)
    requires !Shortcut(base, remote, local, premerged)
    ensures Checked(m, base, remote, local, premerged, skip, ids)
       <==> && AllChecked(m, base, remote, local, skip, Entries(remote).Keys, ids)
            && DropsChecked(m, base, remote, local, skip, Entries(base).Keys, ids)
  {
    hide MergeRecord, CheckedRecord;
  }

  /** One round of the loop over the remote records. */
  method MergeRemoteStep(m: Merger, base: Key, remote: Key, local: Key, ht: HardlinkTracker, skip: set<string>,
                         before: map<string, Record>, n: string, ghost pending: set<string>, ghost g: Goal)
    returns (merged: map<string, Record>, ok: bool)
    requires n in pending && n in Entries(remote)
    requires IsGoal(g, m, base, remote, local, skip) && InProgress(g, pending, before, ht.nlink)
    modifies ht
    ensures ht.nlink.Keys == old(ht.nlink.Keys)
    ensures ok <==> CheckedName(m, base, remote, local, skip, n, ht.nlink.Keys)
    ensures ok ==> InProgress(g, pending - {n}, merged, ht.nlink)
    decreases local, 3
  {
    hide IsGoal, NameChange, MergedOption, InProgress, CheckedName;
    ghost var nlink := ht.nlink;
    var r;
    r, ok := MergeRemoteName(m, base, remote, local, ht, skip, n);
    merged := if r.Some? then before[n := r.value] else before;
    if ok {
      RemoteProgress(g, m, base, remote, local, skip, pending, before, merged, nlink, ht.nlink, n);
    }
  }

  /** The loop over the remote records. */
  method MergeRemoteRecords(m: Merger, base: Key, remote: Key, local: Key, ht: HardlinkTracker, skip: set<string>,
                            start: map<string, Record>, ghost pending: set<string>, ghost g: Goal)
    returns (merged: map<string, Record>, ok: bool)
    requires Entries(remote).Keys <= pending
    requires IsGoal(g, m, base, remote, local, skip) && InProgress(g, pending, start, ht.nlink)
    modifies ht
    ensures ht.nlink.Keys == old(ht.nlink.Keys)
    ensures ok <==> AllChecked(m, base, remote, local, skip, Entries(remote).Keys, ht.nlink.Keys)
    ensures ok ==> InProgress(g, pending - Entries(remote).Keys, merged, ht.nlink)
    decreases local, 4
  {
    hide InProgress, IsGoal, CheckedName;
    merged := start;
    ghost var ids, left := ht.nlink.Keys, pending;
    var names := Entries(remote).Keys;
    var todo := names;
    while todo != {}
      invariant todo <= names && left == pending - (names - todo)
      invariant ht.nlink.Keys == ids && AllChecked(m, base, remote, local, skip, names - todo, ids)
      invariant InProgress(g, left, merged, ht.nlink)
      decreases |todo|
    {
      var name :| name in todo;
      merged, ok := MergeRemoteStep(m, base, remote, local, ht, skip, merged, name, left, g);
      if !ok {
        return;
      }
      todo := todo - {name};
      left := left - {name};
    }
    ok := true;
    assert names - todo == names;
  }

  /** One round of the loop over the base records: a name that only remote deleted goes. */
  method DropDeletedStep(m: Merger, base: Key, remote: Key, local: Key, ht: HardlinkTracker, skip: set<string>,
                         before: map<string, Record>, n: string, ghost pending: set<string>, ghost g: Goal)
    returns (merged: map<string, Record>, ok: bool)
    requires n in Entries(base) && (n in Entries(local) && n !in Entries(remote) <==> n in pending)
    requires IsGoal(g, m, base, remote, local, skip) && InProgress(g, pending, before, ht.nlink)
    modifies ht
    ensures ht.nlink.Keys == old(ht.nlink.Keys)
    ensures ok <==> (n !in Entries(remote) ==> CheckedName(m, base, remote, local, skip, n, ht.nlink.Keys))
    ensures ok ==> InProgress(g, pending - {n}, merged, ht.nlink)
  {
    hide InProgress, IsGoal, CheckedRecord, MergeRecord;
    merged, ok := before, true;
    if n !in Entries(remote) && n in Entries(local) {
      ghost var nlink := ht.nlink;
      merged := before - {n};
      ok := ht.CheckLinkChanged(Some(Entries(local)[n]), None);
      if ok {
        DropProgress(g, m, base, remote, local, skip, pending, before, nlink, ht.nlink, n);
      }
    } else {
      assert pending - {n} == pending;
    }
  }

  /** The loop over the base records. */
  method DropDeleted(m: Merger, base: Key, remote: Key, local: Key, ht: HardlinkTracker, skip: set<string>,
                     start: map<string, Record>, ghost pending: set<string>, ghost g: Goal)
    returns (merged: map<string, Record>, ok: bool)
    requires forall n :: n in Entries(base) ==> (n in pending <==> n in Entries(local) && n !in Entries(remote))
    requires IsGoal(g, m, base, remote, local, skip) && InProgress(g, pending, start, ht.nlink)
    modifies ht
    ensures ht.nlink.Keys == old(ht.nlink.Keys)
    ensures ok <==> DropsChecked(m, base, remote, local, skip, Entries(base).Keys, ht.nlink.Keys)
    ensures ok ==> InProgress(g, pending - Entries(base).Keys, merged, ht.nlink)
  {
    hide InProgress, IsGoal, CheckedName;
    merged := start;
    ghost var ids, left := ht.nlink.Keys, pending;
    var names := Entries(base).Keys;
    var todo := names;
    while todo != {}
      invariant todo <= names && left == pending - (names - todo)
      invariant ht.nlink.Keys == ids && DropsChecked(m, base, remote, local, skip, names - todo, ids)
      invariant InProgress(g, left, merged, ht.nlink)
      decreases |todo|
    {
      var name :| name in todo;
      merged, ok := DropDeletedStep(m, base, remote, local, ht, skip, merged, name, left, g);
      if !ok {
        return;
      }
      todo := todo - {name};
      left := left - {name};
    }
    ok := true;
    assert names - todo == names;
  }

  // ---------------------------------------------------------------------------------------------
  // Panics among files

  /** Some pair of files that the walk hands to mergeFile makes its assertion fail. */
  ghost predicate FilesPanic(m: Merger, base: Key, remote: Key, local: Key, premerged: Key, skip: set<string>)
    decreases local, 4
  {
    !Shortcut(base, remote, local, premerged) && exists n :: NamePanics(m, base, remote, local, skip, n)
  }

  ghost predicate NamePanics(m: Merger, base: Key, remote: Key, local: Key, skip: set<string>, n: string)
    decreases local, 3
  {
    Both(remote, local, skip, n) &&
    RecordPanics(m, Lookup(base, n), Entries(remote)[n], Entries(local)[n], ChildSkipPaths(skip, n))
  }

  ghost predicate RecordPanics(m: Merger, base: Option<Record>, remote: Record, local: Record, skip: set<string>)
    decreases local, 2
  {
    if IsDeep(base, remote, local) then
      FilesPanic(m, IdOf(base), remote.id, local.id, m.MergeAttributes(base, remote, local).id, skip)
    else FilePanics(base, remote, local)
  }

  /** If all legs of both sides have entries, the walk panics exactly over files. */
  lemma {:induction false} KnownIsChecked(m: Merger, base: Key, remote: Key, local: Key, premerged: Key,
                                          skip: set<string>, ids: set<FileId>)
    requires KnownLegs(remote, ids) && KnownLegs(local, ids)
    ensures Checked(m, base, remote, local, premerged, skip, ids)
       <==> !FilesPanic(m, base, remote, local, premerged, skip)
    decreases local, 1
  {
    if !Shortcut(base, remote, local, premerged) {
      forall n | n in AllNames(remote, local)
        ensures CheckedName(m, base, remote, local, skip, n, ids) <==> !NamePanics(m, base, remote, local, skip, n)
      {
        KnownNameIsChecked(m, base, remote, local, skip, n, ids);
      }
      hide CheckedName, NamePanics;
      forall n | NamePanics(m, base, remote, local, skip, n) ensures n in AllNames(remote, local) {
        PanicIsShared(m, base, remote, local, skip, n);
      }
    }
  }

  lemma PanicIsShared(m: Merger, base: Key, remote: Key, local: Key, skip: set<string>, n: string)
    requires NamePanics(m, base, remote, local, skip, n)
    ensures n in AllNames(remote, local)
  {
  }

  lemma {:induction false} KnownNameIsChecked(m: Merger, base: Key, remote: Key, local: Key, skip: set<string>,
                                              n: string, ids: set<FileId>)
    requires KnownLegs(remote, ids) && KnownLegs(local, ids) && n in AllNames(remote, local)
    ensures CheckedName(m, base, remote, local, skip, n, ids) <==> !NamePanics(m, base, remote, local, skip, n)
    decreases local, 0
  {
    assert n in Entries(local) ==> KnownLeg(Entries(local)[n], ids);
    assert n in Entries(remote) ==> KnownLeg(Entries(remote)[n], ids);
    if Both(remote, local, skip, n) {
      var b, r, l := Lookup(base, n), Entries(remote)[n], Entries(local)[n];
      if IsDeep(b, r, l) {
        DeepAttributes(m, b, r, l);
        KnownIsChecked(m, IdOf(b), r.id, l.id, m.MergeAttributes(b, r, l).id, ChildSkipPaths(skip, n), ids);
      } else {
        MergedLegIsOld(m, b, r, l);
      }
    }
  }
}
