/** Paths that a merge is told to leave alone (daemon/merge.go:368-391, 466-476, daemon/api.go:629-640): which
    names they reach, and when local's record stays. */
module SkipPaths {
  import opened Basics
  import opened Objects
  import opened TreeMerge
  import opened MergeLaws
  import opened MergePaths

  // ---------------------------------------------------------------------------------------------
  // Which names a list of paths reaches

  predicate IsName(n: string) {
    n != "" && '/' !in n
  }

  predicate AllNames(names: Path) {
    forall i :: 0 <= i < |names| ==> IsName(names[i])
  }

  /** A path as it is listed. */
  function Join(path: Path): string
    requires path != []
  {
    if |path| == 1 then path[0] else path[0] + "/" + Join(path[1..])
  }

  /** What is left of one listed path below a directory. */
  function Trim(p: string, dir: string): Option<string> {
    if dir + "/" <= p then Some(p[|dir| + 1..]) else if dir <= p then Some(p) else None
  }

  function TrimAll(p: string, dirs: Path): Option<string>
    decreases dirs
  {
    if dirs == [] then Some(p)
    else
      var rest := Trim(p, dirs[0]);
      if rest.None? then None else TrimAll(rest.value, dirs[1..])
  }

  lemma ChildSkips(skip: set<string>, dir: string, n: string)
    ensures n in ChildSkipPaths(skip, dir) <==> exists p :: p in skip && Trim(p, dir) == Some(n)
  {
    forall p | p in skip && dir <= p
      ensures (if dir + "/" <= p then p[|dir| + 1..] else p) in ChildSkipPaths(skip, dir)
    {
    }
    if p :| p in skip && Trim(p, dir) == Some(n) {
      LongerPrefix(p, dir);
      assert n in ChildSkipPaths(skip, dir);
    }
    if n in ChildSkipPaths(skip, dir) {
      var p :| p in skip && dir <= p && n == if dir + "/" <= p then p[|dir| + 1..] else p;
      assert Trim(p, dir) == Some(n);
    }
  }

  lemma LongerPrefix(p: string, dir: string)
    ensures dir + "/" <= p ==> dir <= p
  {
  }

  lemma {:induction false} SkipsAtIs(skip: set<string>, dirs: Path, n: string)
    ensures n in SkipsAt(skip, dirs) <==> exists p :: p in skip && TrimAll(p, dirs) == Some(n)
    decreases dirs
  {
    if dirs == [] {
      assert TrimAll(n, dirs) == Some(n);
    } else {
      var below, rest := ChildSkipPaths(skip, dirs[0]), dirs[1..];
      SkipsAtIs(below, rest, n);
      if n in SkipsAt(skip, dirs) {
        var q :| q in below && TrimAll(q, rest) == Some(n);
        ChildSkips(skip, dirs[0], q);
        var p :| p in skip && Trim(p, dirs[0]) == Some(q);
        assert TrimAll(p, dirs) == Some(n);
      }
      if p :| p in skip && TrimAll(p, dirs) == Some(n) {
        var q := Trim(p, dirs[0]).value;
        ChildSkips(skip, dirs[0], q);
        assert TrimAll(q, rest) == Some(n);
      }
    }
  }

  /** A name is the beginning of the next one: of a directory's name a proper one. */
  predicate Swallows(path: Path)
    requires path != []
    decreases path
  {
    |path| > 1 && ((path[0] <= path[1] && (|path| == 2 || path[0] != path[1])) || Swallows(path[1..]))
  }

  lemma JoinTrims(path: Path)
    requires |path| > 1
    ensures Trim(Join(path), path[0]) == Some(Join(path[1..]))
  {
    assert path[0] + "/" <= Join(path);
  }

  /** A listed path reaches its name. */
  lemma {:induction false} JoinReaches(path: Path)
    requires path != []
    ensures TrimAll(Join(path), path[..|path| - 1]) == Some(path[|path| - 1])
    decreases path
  {
    if |path| > 1 {
      JoinTrims(path);
      JoinReaches(path[1..]);
      assert path[..|path| - 1][1..] == path[1..][..|path[1..]| - 1];
    }
  }

  /** How a joined path begins. */
  lemma JoinBegins(path: Path, dir: string)
    requires path != [] && AllNames(path) && IsName(dir) && dir <= Join(path)
    ensures dir <= path[0]
    ensures dir + "/" <= Join(path) <==> |path| > 1 && dir == path[0]
  {
    var p, first := Join(path), path[0];
    assert first <= p && IsName(first);
    assert forall i :: 0 <= i < |dir| ==> dir[i] == p[i] && dir[i] != '/';
    assert |path| > 1 ==> p[|first|] == '/';
    assert |dir| <= |first|;
    assert first[..|dir|] == p[..|dir|] == dir;
    if dir + "/" <= p {
      assert p[|dir|] == '/';
    }
    if |path| > 1 && dir == first {
      assert p == first + "/" + Join(path[1..]);
    }
  }

  /** Without such a beginning only the listed path reaches the name. */
  lemma {:induction false} OnlyJoinReaches(p: string, path: Path)
    requires path != [] && AllNames(path) && !Swallows(path)
    requires TrimAll(p, path[..|path| - 1]) == Some(path[|path| - 1])
    ensures p == Join(path)
    decreases path
  {
    if |path| > 1 {
      var dir, rest := path[0], path[1..];
      assert path[..|path| - 1][0] == dir && path[..|path| - 1][1..] == rest[..|rest| - 1];
      var q := Trim(p, dir).value;
      OnlyJoinReaches(q, rest);
      if dir + "/" <= p {
        assert p == dir + "/" + q;
      } else {
        JoinBegins(rest, dir);
      }
    }
  }

  /** With one, another path reaches it too. */
  lemma {:induction false} AnotherReaches(path: Path) returns (p: string)
    requires path != [] && AllNames(path) && Swallows(path)
    ensures p != Join(path) && TrimAll(p, path[..|path| - 1]) == Some(path[|path| - 1])
    decreases path
  {
    var dir, rest := path[0], path[1..];
    assert path[..|path| - 1][0] == dir && path[..|path| - 1][1..] == rest[..|rest| - 1];
    if Swallows(rest) {
      var q := AnotherReaches(rest);
      p := dir + "/" + q;
      assert p[|dir| + 1..] == q && Join(path)[|dir| + 1..] == Join(rest);
    } else {
      p := Join(rest);
      JoinReaches(rest);
      assert rest[0] <= p;
      assert dir <= p;
      JoinBegins(rest, dir);
      assert |Join(path)| > |p|;
    }
  }

  /** The name at a path is skipped exactly if the path is listed. */
  ghost predicate SkipsExactly(skip: set<string>, path: Path)
    requires path != []
  {
    path[|path| - 1] in SkipsAt(skip, path[..|path| - 1]) <==> Join(path) in skip
  }

  /** That holds for every list if and only if no name on the path is the beginning of the next one. */
  lemma SkipsListedIff(path: Path)
    requires path != [] && AllNames(path)
    ensures (forall skip :: SkipsExactly(skip, path)) <==> !Swallows(path)
  {
    hide SkipsExactly;
    if Swallows(path) {
      var skip := SkipsAnother(path);
      assert !SkipsExactly(skip, path);
    } else {
      forall skip ensures SkipsExactly(skip, path) {
        SkipsNoOther(skip, path);
      }
    }
  }

  lemma SkipsAnother(path: Path) returns (skip: set<string>)
    requires path != [] && AllNames(path) && Swallows(path)
    ensures !SkipsExactly(skip, path)
  {
    hide TrimAll, Swallows, SkipsAt;
    var p := AnotherReaches(path);
    skip := {p};
    SkipsAtIs(skip, path[..|path| - 1], path[|path| - 1]);
    assert p in skip;
  }

  lemma SkipsNoOther(skip: set<string>, path: Path)
    requires path != [] && AllNames(path) && !Swallows(path)
    ensures SkipsExactly(skip, path)
  {
    hide TrimAll, Swallows, SkipsAt, Join;
    var n, dirs := path[|path| - 1], path[..|path| - 1];
    SkipsAtIs(skip, dirs, n);
    if Join(path) in skip {
      ListedIsSkipped(skip, path);
    }
    if p :| p in skip && TrimAll(p, dirs) == Some(n) {
      OnlyJoinReaches(p, path);
    }
  }

  /** What is listed is always skipped. */
  lemma ListedIsSkipped(skip: set<string>, path: Path)
    requires path != [] && Join(path) in skip
    ensures path[|path| - 1] in SkipsAt(skip, path[..|path| - 1])
  {
    JoinReaches(path);
    SkipsAtIs(skip, path[..|path| - 1], path[|path| - 1]);
  }

  /** Listing "ab" also skips "ab" in the directory "a". */
  lemma SkipsTooMuch()
    ensures "ab" in SkipsAt({"ab"}, ["a"]) && Join(["a", "ab"]) !in {"ab"}
  {
    var path := ["a", "ab"];
    assert "ab"[1] != ("a" + "/")[1];
    assert Trim("ab", "a") == Some("ab") && ["a"][1..] == [];
    assert TrimAll("ab", ["a"]) == TrimAll("ab", []) == Some("ab");
    SkipsAtIs({"ab"}, ["a"], "ab");
    assert |Join(path)| == 4;
  }

  // ---------------------------------------------------------------------------------------------
  // What becomes of a skipped path

  /** The name at the path, or a directory on the way to it, is skipped. */
  predicate Skipped(skip: set<string>, path: Path)
    decreases path
  {
    path != [] && (path[0] in skip || Skipped(ChildSkipPaths(skip, path[0]), path[1..]))
  }

  lemma {:induction false} LastIsSkipped(skip: set<string>, path: Path)
    requires path != [] && path[|path| - 1] in SkipsAt(skip, path[..|path| - 1])
    ensures Skipped(skip, path)
    decreases path
  {
    if |path| > 1 {
      assert path[..|path| - 1][1..] == path[1..][..|path[1..]| - 1];
      LastIsSkipped(ChildSkipPaths(skip, path[0]), path[1..]);
    }
  }

  /** Above the skipped name the merge meets a directory that only remote changed, and takes remote's
      whole. */
  predicate Overtaken(base: Key, remote: Key, local: Key, skip: set<string>, path: Path)
    decreases path
  {
    |path| > 1 && path[0] !in skip &&
    var b, r, l := Child(base, path[0]), Child(remote, path[0]), Child(local, path[0]);
    if l == b && b != ZeroKey then r != l
    else NeedDeeperMergeId(b, r, l) && Overtaken(b, r, l, ChildSkipPaths(skip, path[0]), path[1..])
  }

  /** The record at a skipped path is local's, but remote's if the key-equality shortcut overtakes it. */
  lemma {:induction false} SkippedRecord(m: Merger, fast: bool, base: Key, remote: Key, local: Key, premerged: Key,
                                         skip: set<string>, path: Path)
    requires path != [] && Has(remote, path) && Has(local, path) && LeadsIfAny(base, path[..|path| - 1])
    requires Skipped(skip, path) && SameAlong(base, remote, local, path[..|path| - 1])
    requires !(fast && Shortcut(base, remote, local, premerged))
    ensures RecordAt(MergeDirectory(m, fast, base, remote, local, premerged, skip), path)
         == if fast && Overtaken(base, remote, local, skip, path) then RecordAt(remote, path) else RecordAt(local, path)
    decreases path
  {
    var n := path[0];
    FirstDecides(remote, path);
    FirstDecides(local, path);
    if n in skip {
      SkippedName(m, fast, base, remote, local, premerged, skip, path);
    } else {
      var rest := path[1..];
      assert path[..|path| - 1][0] == n && path[..|path| - 1][1..] == rest[..|rest| - 1];
      NowhereBelowZero(rest);
      Descends(m, fast, base, remote, local, premerged, skip, n);
      HandsDownChange(m, base, remote, local, n);
      var b, r, l, down := Child(base, n), Child(remote, n), Child(local, n), HandedDown(m, base, remote, local, n);
      HandsDownSome(m, base, remote, local, n);
      hide MergeRecord, HandedDown, SameFile, Merger.MergeAttributes;
      if !(fast && Shortcut(b, r, l, down)) {
        hide MergeDirectory;
        SkippedRecord(m, fast, b, r, l, down, ChildSkipPaths(skip, n), rest);
      }
    }
  }

  lemma HandsDownSome(m: Merger, base: Key, remote: Key, local: Key, n: string)
    requires IsDir(remote, n) && IsDir(local, n)
    ensures HandedDown(m, base, remote, local, n) == Child(remote, n)
         || HandedDown(m, base, remote, local, n) == Child(local, n)
  {
  }

  lemma SkippedName(m: Merger, fast: bool, base: Key, remote: Key, local: Key, premerged: Key, skip: set<string>,
                    path: Path)
    requires path != [] && path[0] in skip && path[0] in Entries(local) && path[0] in Entries(remote)
    requires !(fast && Shortcut(base, remote, local, premerged))
    ensures RecordAt(MergeDirectory(m, fast, base, remote, local, premerged, skip), path) == RecordAt(local, path)
  {
    hide MergeRecord;
    var n, merged := path[0], MergedEntries(m, fast, base, remote, local, skip);
    assert n in merged && merged[n] == MergeName(m, fast, base, remote, local, skip, n) == Entries(local)[n];
  }

  /** A listed path keeps local's record through the whole merge if and only if the shortcut does not
      overtake it, or remote has the same. */
  lemma ListedKeepsLocalIff(m: Merger, base: Key, remote: Key, local: Key, skip: set<string>, path: Path)
    requires path != [] && Has(remote, path) && Has(local, path) && LeadsIfAny(base, path[..|path| - 1])
    requires Join(path) in skip && SameAlong(base, remote, local, path[..|path| - 1])
    ensures RecordAt(MergeDirectory(m, true, base, remote, local, ZeroKey, skip), path) == RecordAt(local, path)
       <==> (Overtaken(base, remote, local, skip, path) ==> RecordAt(remote, path) == RecordAt(local, path))
  {
    ListedIsSkipped(skip, path);
    LastIsSkipped(skip, path);
    hide MergeDirectory;
    SkippedRecord(m, true, base, remote, local, ZeroKey, skip, path);
  }

  /** Remote changed "d/x", local nothing: although "d/x" is to be left alone, remote's comes. */
  lemma ShortcutIgnoresSkip(m: Merger, was: Record, now: Record)
    requires was != now
    ensures var base := DirKey(map["d" := Dir(DirKey(map["x" := was]), 1)]);
      var remote := DirKey(map["d" := Dir(DirKey(map["x" := now]), 1)]);
      RecordAt(MergeDirectory(m, true, base, remote, base, ZeroKey, {"d/x"}), ["d", "x"]) == Some(now)
  {
    var before, after := DirKey(map["x" := was]), DirKey(map["x" := now]);
    var base, remote := DirKey(map["d" := Dir(before, 1)]), DirKey(map["d" := Dir(after, 1)]);
    var path := ["d", "x"];
    assert path[1..] == ["x"] && path[..1] == ["d"] && path[..1][1..] == [];
    assert before.entries["x"] != after.entries["x"];
    assert Child(base, "d") == before && Child(remote, "d") == after;
    assert Has(base, path) && Has(remote, path) && RecordAt(remote, path) == Lookup(after, "x") == Some(now);
    assert Join(path) == "d" + "/" + Join(["x"]) == "d/x";
    ListedIsSkipped({"d/x"}, path);
    LastIsSkipped({"d/x"}, path);
    hide MergeDirectory;
    SkippedRecord(m, true, base, remote, base, ZeroKey, {"d/x"}, path);
  }
}
