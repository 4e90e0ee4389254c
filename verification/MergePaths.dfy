/** What becomes of a path of names, at any depth, in the merge of two trees (daemon/merge.go:395-528,
    744-840). */
module MergePaths {
  import opened Basics
  import opened Objects
  import opened TreeMerge
  import opened MergeLaws
  import opened RecordLaws

  type Path = seq<string>

  // ---------------------------------------------------------------------------------------------
  // Paths

  function Child(k: Key, n: string): Key {
    if n in Entries(k) && Entries(k)[n].rtype.Directory? then Entries(k)[n].id else ZeroKey
  }

  /** The directory at a path; ZeroKey, which has no entries, if there is none. */
  function DirAt(k: Key, path: Path): Key
    decreases path
  {
    if path == [] then k else DirAt(Child(k, path[0]), path[1..])
  }

  function NamesAt(k: Key, path: Path): set<string> {
    Entries(DirAt(k, path)).Keys
  }

  function RecordAt(k: Key, path: Path): Option<Record>
    requires path != []
    decreases path
  {
    if |path| == 1 then Lookup(k, path[0]) else RecordAt(Child(k, path[0]), path[1..])
  }

  predicate Has(k: Key, path: Path)
    requires path != []
  {
    RecordAt(k, path).Some?
  }

  /** There are directories all along the path. */
  predicate Leads(k: Key, path: Path)
    decreases path
  {
    path == [] || (IsDir(k, path[0]) && Leads(Child(k, path[0]), path[1..]))
  }

  predicate IsDir(k: Key, n: string) {
    n in Entries(k) && Entries(k)[n].rtype.Directory?
  }

  /** There are directories along the path, as far as there is anything. */
  predicate LeadsIfAny(k: Key, path: Path)
    decreases path
  {
    path == [] || ((path[0] in Entries(k) ==> IsDir(k, path[0])) && LeadsIfAny(Child(k, path[0]), path[1..]))
  }

  /** Where the base has a directory on the path, local and remote mean the same one. */
  predicate SameAlong(base: Key, remote: Key, local: Key, path: Path)
    decreases path
  {
    path != [] ==>
      && SameFile(base, remote, local, path[0])
      && SameAlong(Child(base, path[0]), Child(remote, path[0]), Child(local, path[0]), path[1..])
  }

  predicate SameFile(base: Key, remote: Key, local: Key, n: string) {
    n in Entries(base) && n in Entries(remote) && n in Entries(local) ==>
      Entries(local)[n].fileId == Entries(remote)[n].fileId
  }

  // ---------------------------------------------------------------------------------------------
  // One level down

  /** What mergeRecord hands down to the merge of two directories of one name. */
  function HandedDown(m: Merger, base: Key, remote: Key, local: Key, n: string): Key
    requires n in Entries(remote) && n in Entries(local)
  {
    m.MergeAttributes(Lookup(base, n), Entries(remote)[n], Entries(local)[n]).id
  }

  /** Directories of one name on both sides, with a directory or nothing in the base, are merged in turn. */
  lemma Descends(m: Merger, fast: bool, base: Key, remote: Key, local: Key, premerged: Key, skip: set<string>,
                 n: string)
    requires IsDir(remote, n) && IsDir(local, n) && (n in Entries(base) ==> IsDir(base, n)) && n !in skip
    requires !(fast && Shortcut(base, remote, local, premerged))
    ensures var merged := MergeDirectory(m, fast, base, remote, local, premerged, skip);
      && IsDir(merged, n)
      && Child(merged, n) == MergeDirectory(m, fast, Child(base, n), Child(remote, n), Child(local, n),
                                            HandedDown(m, base, remote, local, n), ChildSkipPaths(skip, n))
  {
    DescendsRecord(m, fast, Lookup(base, n), Entries(remote)[n], Entries(local)[n], ChildSkipPaths(skip, n));
    hide MergeRecord;
    var merged := MergedEntries(m, fast, base, remote, local, skip);
    assert n in merged && merged[n] == MergeName(m, fast, base, remote, local, skip, n);
  }

  lemma DescendsRecord(m: Merger, fast: bool, base: Option<Record>, remote: Record, local: Record, skip: set<string>)
    requires remote.rtype.Directory? && local.rtype.Directory? && (base.Some? ==> base.value.rtype.Directory?)
    ensures var r := MergeRecord(m, fast, base, remote, local, skip);
      && r.rtype.Directory?
      && r.id == MergeDirectory(m, fast, IdOf(base), remote.id, local.id,
                                m.MergeAttributes(base, remote, local).id, skip)
  {
  }

  /** Of one directory the key handed down is that of the side that changed it. */
  lemma HandsDownChange(m: Merger, base: Key, remote: Key, local: Key, n: string)
    requires IsDir(remote, n) && IsDir(local, n) && (n in Entries(base) ==> IsDir(base, n))
    requires SameFile(base, remote, local, n)
    ensures PremergedAgrees(Child(base, n), Child(remote, n), Child(local, n), HandedDown(m, base, remote, local, n))
  {
  }

  /** No name on the path is skipped. */
  predicate Unskipped(skip: set<string>, path: Path)
    decreases path
  {
    path != [] ==> path[0] !in skip && Unskipped(ChildSkipPaths(skip, path[0]), path[1..])
  }

  /** The skip paths that apply at a path. */
  function SkipsAt(skip: set<string>, path: Path): set<string>
    decreases path
  {
    if path == [] then skip else SkipsAt(ChildSkipPaths(skip, path[0]), path[1..])
  }

  lemma NoChildSkips(n: string)
    ensures ChildSkipPaths({}, n) == {}
  {
  }

  lemma {:induction false} NoSkips(path: Path)
    ensures Unskipped({}, path) && SkipsAt({}, path) == {}
    decreases path
  {
    if path != [] {
      NoChildSkips(path[0]);
      NoSkips(path[1..]);
    }
  }

  // ---------------------------------------------------------------------------------------------
  // Names

  /** The names of the merge of three directories. */
  function MergedSet(base: set<string>, remote: set<string>, local: set<string>): set<string> {
    (local - (base - remote)) + (remote - base)
  }

  /** At every path along which both sides have directories, and the base a directory or nothing, the
      names are those that local kept and remote did not delete, and those that remote added.  With
      shortcuts this holds where both sides mean the same directories. */
  lemma {:induction false} NamesAtPaths(m: Merger, fast: bool, base: Key, remote: Key, local: Key, premerged: Key,
                                        skip: set<string>, path: Path)
    requires Unskipped(skip, path) && Leads(remote, path) && Leads(local, path) && LeadsIfAny(base, path)
    requires fast ==> SameAlong(base, remote, local, path) && PremergedAgrees(base, remote, local, premerged)
    ensures var merged := MergeDirectory(m, fast, base, remote, local, premerged, skip);
      && Leads(merged, path)
      && NamesAt(merged, path) == MergedSet(NamesAt(base, path), NamesAt(remote, path), NamesAt(local, path))
    decreases |path|
  {
    hide MergeRecord;
    if fast && Shortcut(base, remote, local, premerged) {
      SetsAgree(NamesAt(base, path), NamesAt(remote, path));
      SetsAgree(NamesAt(base, path), NamesAt(local, path));
      hide MergedSet;
    } else if path != [] {
      var n := path[0];
      Descends(m, fast, base, remote, local, premerged, skip, n);
      if fast {
        HandsDownChange(m, base, remote, local, n);
      }
      hide MergeDirectory, HandedDown, PremergedAgrees;
      NamesAtPaths(m, fast, Child(base, n), Child(remote, n), Child(local, n), HandedDown(m, base, remote, local, n),
                   ChildSkipPaths(skip, n), path[1..]);
    }
  }

  lemma SetsAgree(a: set<string>, b: set<string>)
    ensures MergedSet(a, a, b) == b && MergedSet(a, b, a) == b && MergedSet(a, b, b) == b
  {
  }

  // ---------------------------------------------------------------------------------------------
  // Files

  /** A record whose versions all differ is merged, at any path: no shortcut can be taken above it. */
  lemma {:induction false} RecordAtPaths(m: Merger, fast: bool, base: Key, remote: Key, local: Key, premerged: Key,
                                         skip: set<string>, path: Path)
    requires path != [] && Unskipped(skip, path) && LeadsIfAny(base, path[..|path| - 1])
    requires Has(remote, path) && Has(local, path)
    requires AllDiffer(base, remote, local, path)
    ensures RecordAt(MergeDirectory(m, fast, base, remote, local, premerged, skip), path)
         == Some(MergeRecord(m, fast, RecordAt(base, path), RecordAt(remote, path).value, RecordAt(local, path).value,
                             SkipsAt(skip, path)))
    decreases |path|
  {
    var n, rest := path[0], path[1..];
    DifferAbove(base, remote, local, premerged, path);
    hide MergeRecord, Shortcut;
    if |path| == 1 {
      var merged := MergedEntries(m, fast, base, remote, local, skip);
      assert n in merged && merged[n] == MergeName(m, fast, base, remote, local, skip, n);
      assert SkipsAt(skip, path) == SkipsAt(ChildSkipPaths(skip, n), []);
    } else {
      assert path[..|path| - 1][0] == n && path[..|path| - 1][1..] == rest[..|rest| - 1];
      NowhereBelowZero(rest);
      Descends(m, fast, base, remote, local, premerged, skip, n);
      hide MergeDirectory, HandedDown;
      RecordAtPaths(m, fast, Child(base, n), Child(remote, n), Child(local, n), HandedDown(m, base, remote, local, n),
                    ChildSkipPaths(skip, n), rest);
    }
  }

  /** The versions at a path have different keys, as far as there are any. */
  predicate AllDiffer(base: Key, remote: Key, local: Key, path: Path)
    requires path != []
  {
    var b, r, l := RecordAt(base, path), RecordAt(remote, path), RecordAt(local, path);
    && r.Some? && l.Some? && r.value.id != l.value.id
    && (b.Some? ==> b.value.id != r.value.id && b.value.id != l.value.id)
  }

  lemma DifferAbove(base: Key, remote: Key, local: Key, premerged: Key, path: Path)
    requires path != [] && AllDiffer(base, remote, local, path)
    ensures !Shortcut(base, remote, local, premerged)
  {
  }

  lemma {:induction false} NowhereBelowZero(path: Path)
    requires path != []
    ensures RecordAt(ZeroKey, path) == None
  {
    if |path| > 1 {
      NowhereBelowZero(path[1..]);
    }
  }

  /** A regular file that both sides changed, at any path, holds the byte-level merge of its versions. */
  lemma FilesAtPathsHoldMerge(m: Merger, fast: bool, base: Key, remote: Key, local: Key, premerged: Key,
                              skip: set<string>, path: Path)
    requires path != [] && Unskipped(skip, path) && LeadsIfAny(base, path[..|path| - 1])
    requires Has(remote, path) && Has(local, path)
    requires BothChanged(RecordAt(base, path), RecordAt(remote, path).value, RecordAt(local, path).value)
    ensures var r := RecordAt(MergeDirectory(m, fast, base, remote, local, premerged, skip), path);
      && r.Some?
      && HoldsMerge(r.value, RecordAt(base, path), RecordAt(remote, path).value, RecordAt(local, path).value)
  {
    hide MergeRecord, MergeDirectory, HoldsMerge;
    RecordAtPaths(m, fast, base, remote, local, premerged, skip, path);
    RecordHoldsMerge(m, fast, RecordAt(base, path), RecordAt(remote, path).value, RecordAt(local, path).value,
                     SkipsAt(skip, path));
  }

  // ---------------------------------------------------------------------------------------------
  // What comes and goes

  /** The side lacks something on the way to the path that the base had. */
  ghost predicate DeletesOn(base: Key, side: Key, path: Path) {
    exists k :: 0 < k <= |path| && Has(base, path[..k]) && !Has(side, path[..k])
  }

  ghost predicate AddsOn(base: Key, side: Key, path: Path) {
    DeletesOn(side, base, path)
  }

  /** On the way to the path both sides have something that is not one directory: another type, on a
      side or in the base, or directories of different files. */
  predicate Clashes(base: Key, remote: Key, local: Key, path: Path)
    decreases path
  {
    |path| > 1 && path[0] in Entries(remote) && path[0] in Entries(local) &&
    (|| !IsDir(remote, path[0]) || !IsDir(local, path[0]) || (path[0] in Entries(base) && !IsDir(base, path[0]))
     || !SameFile(base, remote, local, path[0])
     || Clashes(Child(base, path[0]), Child(remote, path[0]), Child(local, path[0]), path[1..]))
  }

  lemma DeletesBelow(base: Key, side: Key, path: Path)
    requires |path| > 1 && IsDir(base, path[0])
    requires DeletesOn(Child(base, path[0]), Child(side, path[0]), path[1..])
    ensures DeletesOn(base, side, path)
  {
    var b, x, rest := Child(base, path[0]), Child(side, path[0]), path[1..];
    var k :| 0 < k <= |rest| && Has(b, rest[..k]) && !Has(x, rest[..k]);
    assert path[..k + 1][1..] == rest[..k] && path[..k + 1][0] == path[0];
    assert Has(base, path[..k + 1]) && !Has(side, path[..k + 1]);
  }

  lemma DeletesFirst(base: Key, side: Key, path: Path)
    requires path != [] && path[0] in Entries(base) && path[0] !in Entries(side)
    ensures DeletesOn(base, side, path)
  {
    assert path[..1] == [path[0]];
    assert Has(base, path[..1]) && !Has(side, path[..1]);
  }

  /** What remote or local has at a path is lost only if the other side deleted it or something on the way
      to it, or the sides clash on the way; and what neither has does not appear. */
  ghost predicate KeepsPath(base: Key, remote: Key, local: Key, merged: Key, path: Path)
    requires path != []
  {
    && (Has(remote, path) && !Has(merged, path) ==> DeletesOn(base, local, path))
    && (Has(local, path) && !Has(merged, path) ==> DeletesOn(base, remote, path))
    && (!Has(remote, path) && Has(merged, path) ==> AddsOn(base, local, path))
    && (!Has(local, path) && Has(merged, path) ==> AddsOn(base, remote, path))
  }

  lemma {:induction false} PathsAreKept(m: Merger, fast: bool, base: Key, remote: Key, local: Key, premerged: Key,
                                        path: Path)
    requires path != [] && !Clashes(base, remote, local, path)
    requires fast ==> PremergedAgrees(base, remote, local, premerged)
    ensures KeepsPath(base, remote, local, MergeDirectory(m, fast, base, remote, local, premerged, {}), path)
    decreases |path|
  {
    var n := path[0];
    if fast && Shortcut(base, remote, local, premerged) {
      WholePath(base, local, path);
      WholePath(base, remote, path);
    } else if n in Entries(remote) && n in Entries(local) {
      if |path| > 1 {
        NoChildSkips(n);
        Descends(m, fast, base, remote, local, premerged, {}, n);
        HandsDownChange(m, base, remote, local, n);
        hide MergeDirectory, HandedDown, PremergedAgrees, SameFile;
        PathsAreKept(m, fast, Child(base, n), Child(remote, n), Child(local, n), HandedDown(m, base, remote, local, n),
                     path[1..]);
        LiftsPath(base, remote, local, MergeDirectory(m, fast, base, remote, local, premerged, {}), path);
      } else {
        BothHaveName(m, fast, base, remote, local, premerged, n);
      }
    } else {
      OneHasName(m, fast, base, remote, local, premerged, path);
    }
  }

  lemma WholePath(base: Key, side: Key, path: Path)
    requires path != []
    ensures Has(base, path) && !Has(side, path) ==> DeletesOn(base, side, path)
    ensures Has(side, path) && !Has(base, path) ==> AddsOn(base, side, path)
  {
    assert path[..|path|] == path;
  }

  lemma LiftsPath(base: Key, remote: Key, local: Key, merged: Key, path: Path)
    requires |path| > 1 && IsDir(remote, path[0]) && IsDir(local, path[0]) && IsDir(merged, path[0])
    requires KeepsPath(Child(base, path[0]), Child(remote, path[0]), Child(local, path[0]), Child(merged, path[0]),
                       path[1..])
    requires path[0] in Entries(base) ==> IsDir(base, path[0])
    ensures KeepsPath(base, remote, local, merged, path)
  {
    var n, rest := path[0], path[1..];
    if DeletesOn(Child(base, n), Child(local, n), rest) {
      BaseIsDir(base, Child(local, n), path);
      DeletesBelow(base, local, path);
    }
    if DeletesOn(Child(base, n), Child(remote, n), rest) {
      BaseIsDir(base, Child(remote, n), path);
      DeletesBelow(base, remote, path);
    }
    if AddsOn(Child(base, n), Child(local, n), rest) {
      DeletesBelow(local, base, path);
    }
    if AddsOn(Child(base, n), Child(remote, n), rest) {
      DeletesBelow(remote, base, path);
    }
    hide DeletesOn;
  }

  /** Nothing was deleted from a directory that is not there. */
  lemma BaseIsDir(base: Key, side: Key, path: Path)
    requires |path| > 1 && DeletesOn(Child(base, path[0]), side, path[1..])
    ensures IsDir(base, path[0])
  {
    var k :| 0 < k <= |path[1..]| && Has(Child(base, path[0]), path[1..][..k]) && !Has(side, path[1..][..k]);
    if !IsDir(base, path[0]) {
      NowhereBelowZero(path[1..][..k]);
    }
  }

  lemma BothHaveName(m: Merger, fast: bool, base: Key, remote: Key, local: Key, premerged: Key, n: string)
    requires n in Entries(remote) && n in Entries(local) && !(fast && Shortcut(base, remote, local, premerged))
    ensures Has(MergeDirectory(m, fast, base, remote, local, premerged, {}), [n])
  {
    hide MergeRecord;
    assert n in MergedEntries(m, fast, base, remote, local, {});
  }

  lemma OneHasName(m: Merger, fast: bool, base: Key, remote: Key, local: Key, premerged: Key, path: Path)
    requires path != [] && !(path[0] in Entries(remote) && path[0] in Entries(local))
    requires !(fast && Shortcut(base, remote, local, premerged))
    ensures KeepsPath(base, remote, local, MergeDirectory(m, fast, base, remote, local, premerged, {}), path)
  {
    hide MergeRecord;
    var n := path[0];
    var merged := MergeDirectory(m, fast, base, remote, local, premerged, {});
    TakesOne(m, fast, base, remote, local, premerged, n);
    if n !in Entries(remote) {
      FirstDecides(remote, path);
      if n in Entries(local) {
        if n in Entries(base) {
          DeletesFirst(base, remote, path);
        } else {
          DeletesFirst(local, base, path);
        }
      }
      SameFirst(local, merged, path);
    }
    if n !in Entries(local) {
      FirstDecides(local, path);
      if n in Entries(remote) {
        if n in Entries(base) {
          DeletesFirst(base, local, path);
        } else {
          DeletesFirst(remote, base, path);
        }
      }
      SameFirst(remote, merged, path);
    }
    FirstDecides(merged, path);
    hide DeletesOn, MergeDirectory;
  }

  /** A name of one side alone is taken as it is, if the base does not have it. */
  lemma TakesOne(m: Merger, fast: bool, base: Key, remote: Key, local: Key, premerged: Key, n: string)
    requires !(n in Entries(remote) && n in Entries(local)) && !(fast && Shortcut(base, remote, local, premerged))
    ensures var merged := MergeDirectory(m, fast, base, remote, local, premerged, {});
      Lookup(merged, n) == if n in Entries(base) then None else if n in Entries(local) then Lookup(local, n)
                           else Lookup(remote, n)
  {
    hide MergeRecord;
    var merged := MergedEntries(m, fast, base, remote, local, {});
    assert n in merged ==> merged[n] == MergeName(m, fast, base, remote, local, {}, n);
  }

  lemma FirstDecides(k: Key, path: Path)
    requires path != []
    ensures path[0] !in Entries(k) ==> !Has(k, path)
  {
    if path[0] !in Entries(k) && |path| > 1 {
      NowhereBelowZero(path[1..]);
    }
  }

  lemma SameFirst(a: Key, b: Key, path: Path)
    requires path != []
    ensures Lookup(a, path[0]) == Lookup(b, path[0]) ==> Has(a, path) == Has(b, path)
  {
  }
}
