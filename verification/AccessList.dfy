/** The access list: what happened to each path of a workspace (daemon/accesslist.go, cmds.go). */
module AccessList {
  import opened Basics

  datatype Flags = Flags(read: bool, updated: bool, created: bool, deleted: bool, isDir: bool)

  /** updatePathFlags; None deletes the entry. */
  function UpdatePathFlags(f: Flags, op: Flags): Option<Flags> {
    var g := f.(read := f.read || op.read, updated := f.updated || op.updated);
    if g.created && op.deleted then None
    else if g.deleted && op.created then
      if g.isDir then
        if g.read then Some(g.(deleted := false)) else None
      else Some(Flags(false, true, false, false, false))
    else Some(g.(created := g.created || op.created, deleted := g.deleted || op.deleted))
  }

  /** markAccessed on the entry of one path. */
  function Mark(entry: Option<Flags>, op: Flags): Option<Flags> {
    if entry.None? then Some(op) else UpdatePathFlags(entry.value, op)
  }

  /** The entry of a path after a trace of operations on it. */
  function Entry(trace: seq<Flags>): Option<Flags> {
    if trace == [] then None else Mark(Entry(trace[..|trace| - 1]), trace[|trace| - 1])
  }

  // ---------------------------------------------------------------------------------------------
  // What the trace did

  /** Whether the path exists after the trace, if it did at the start. */
  function Exists(start: bool, trace: seq<Flags>): bool {
    if trace == [] then start
    else
      var op := trace[|trace| - 1];
      if op.created then true else if op.deleted then false else Exists(start, trace[..|trace| - 1])
  }

  /** Only what is absent is created, and only what is present is deleted. */
  predicate Consistent(start: bool, trace: seq<Flags>) {
    forall k :: 0 <= k < |trace| ==>
      && !(trace[k].created && trace[k].deleted)
      && (trace[k].created ==> !Exists(start, trace[..k]))
      && (trace[k].deleted ==> Exists(start, trace[..k]))
  }

  predicate Created(e: Option<Flags>) {
    e.Some? && e.value.created
  }

  predicate Deleted(e: Option<Flags>) {
    e.Some? && e.value.deleted
  }

  lemma ConsistentPrefix(start: bool, trace: seq<Flags>, k: nat)
    requires Consistent(start, trace) && k <= |trace|
    ensures Consistent(start, trace[..k])
  {
    forall j | 0 <= j < k ensures trace[..k][..j] == trace[..j] {
    }
  }

  lemma ConsistentAt(start: bool, trace: seq<Flags>, k: nat)
    requires Consistent(start, trace) && k < |trace|
    ensures !(trace[k].created && trace[k].deleted)
    ensures trace[k].created ==> !Exists(start, trace[..k])
    ensures trace[k].deleted ==> Exists(start, trace[..k])
  {
  }

  /** Created and deleted are the net effect of the trace: the path is listed as created exactly if it
      came to be, and as deleted exactly if it ceased to be. */
  lemma {:induction false} NetEffect(start: bool, trace: seq<Flags>)
    requires Consistent(start, trace)
    ensures Created(Entry(trace)) <==> !start && Exists(start, trace)
    ensures Deleted(Entry(trace)) <==> start && !Exists(start, trace)
    decreases |trace|
  {
    if trace != [] {
      var k := |trace| - 1;
      ConsistentPrefix(start, trace, k);
      NetEffect(start, trace[..k]);
      assert trace[k].created ==> !Exists(start, trace[..k]);
      assert trace[k].deleted ==> Exists(start, trace[..k]);
    }
  }

  /** The operation brings the path back to what it was at the start. */
  predicate Restores(start: bool, op: Flags) {
    if start then op.created else op.deleted
  }

  /** The operations since the path was last restored. */
  function Since(start: bool, trace: seq<Flags>): seq<Flags> {
    if trace == [] then []
    else
      var op := trace[|trace| - 1];
      if Restores(start, op) then [] else Since(start, trace[..|trace| - 1]) + [op]
  }

  /** It is the longest stretch at the end of the trace that restores nothing. */
  lemma {:induction false} SinceIsLast(start: bool, trace: seq<Flags>)
    ensures |Since(start, trace)| <= |trace| && Since(start, trace) == trace[|trace| - |Since(start, trace)|..]
    ensures forall op :: op in Since(start, trace) ==> !Restores(start, op)
    ensures |Since(start, trace)| < |trace| ==> Restores(start, trace[|trace| - |Since(start, trace)| - 1])
    decreases |trace|
  {
    if trace != [] && !Restores(start, trace[|trace| - 1]) {
      SinceIsLast(start, trace[..|trace| - 1]);
    }
  }

  predicate AnyRead(trace: seq<Flags>) {
    exists k :: 0 <= k < |trace| && trace[k].read
  }

  predicate AnyUpdate(trace: seq<Flags>) {
    exists k :: 0 <= k < |trace| && trace[k].updated
  }

  lemma AnyOfMore(trace: seq<Flags>, op: Flags)
    ensures AnyRead(trace + [op]) <==> AnyRead(trace) || op.read
    ensures AnyUpdate(trace + [op]) <==> AnyUpdate(trace) || op.updated
  {
    var more := trace + [op];
    assert more[|trace|] == op;
    assert forall k :: 0 <= k < |trace| ==> more[k] == trace[k];
  }

  /** What the entry of a file says, given what happened since it was last restored: whether anything
      did, a read, an update. */
  predicate FileShape(e: Option<Flags>, restored: bool, some: bool, read: bool, updated: bool) {
    && (e.Some? <==> some || restored)
    && (e.Some? ==> (e.value.read <==> read) && (e.value.updated <==> updated || restored) && !e.value.isDir)
  }

  lemma MarkShape(e: Option<Flags>, op: Flags, start: bool, exists_: bool, restored: bool,
                  some: bool, read: bool, updated: bool)
    requires FileShape(e, start && restored, some, read, updated) && (!some ==> !read && !updated)
    requires Created(e) <==> !start && exists_
    requires Deleted(e) <==> start && !exists_
    requires !(op.created && op.deleted) && !op.isDir && (op.created ==> !exists_) && (op.deleted ==> exists_)
    ensures if (if start then op.created else op.deleted) then FileShape(Mark(e, op), start, false, false, false)
            else FileShape(Mark(e, op), start && restored, true, read || op.read, updated || op.updated)
  {
  }

  /** For a file, what came before it was restored is forgotten, except that a file deleted and
      recreated counts as updated; temporary files leave no entry. */
  lemma {:induction false} FileEntry(start: bool, trace: seq<Flags>)
    requires Consistent(start, trace) && forall k :: 0 <= k < |trace| ==> !trace[k].isDir
    ensures var since := Since(start, trace);
      FileShape(Entry(trace), start && |since| < |trace|, since != [], AnyRead(since), AnyUpdate(since))
    decreases |trace|
  {
    if trace != [] {
      var k := |trace| - 1;
      var before, op := trace[..k], trace[k];
      ConsistentPrefix(start, trace, k);
      ConsistentAt(start, trace, k);
      hide Consistent, Exists;
      FileEntry(start, before);
      NetEffect(start, before);
      var since := Since(start, before);
      SinceIsLast(start, before);
      AnyOfMore(since, op);
      MarkShape(Entry(before), op, start, Exists(start, before), |since| < k,
                since != [], AnyRead(since), AnyUpdate(since));
    }
  }

  /** The operations on a directory that count: those since it was last restored while unread, or, if it
      was not there at the start, since it last went. */
  function DirSince(start: bool, trace: seq<Flags>): seq<Flags> {
    if trace == [] then []
    else
      var more := DirSince(start, trace[..|trace| - 1]) + [trace[|trace| - 1]];
      if Restores(start, trace[|trace| - 1]) && !(start && AnyRead(more)) then [] else more
  }

  /** What the entry of a directory says, given the operations that count. */
  ghost predicate DirShape(e: Option<Flags>, counted: seq<Flags>) {
    && (e.Some? <==> counted != [])
    && (e.Some? ==> e.value.isDir && (e.value.read <==> AnyRead(counted)) && (e.value.updated <==> AnyUpdate(counted)))
  }

  /** The entry of a directory: it is listed with the reads and updates that count, and not at all if
      nothing does. */
  lemma {:induction false} DirectoryEntry(start: bool, trace: seq<Flags>)
    requires Consistent(start, trace) && forall k :: 0 <= k < |trace| ==> trace[k].isDir
    ensures DirShape(Entry(trace), DirSince(start, trace))
    decreases |trace|
  {
    if trace != [] {
      var k := |trace| - 1;
      var before, op := trace[..k], trace[k];
      ConsistentPrefix(start, trace, k);
      ConsistentAt(start, trace, k);
      DirectoryEntry(start, before);
      NetEffect(start, before);
      hide Consistent, Exists;
      AnyOfMore(DirSince(start, before), op);
      MarkDirectory(Entry(before), op, start, Exists(start, before), DirSince(start, before));
    }
  }

  lemma MarkDirectory(e: Option<Flags>, op: Flags, start: bool, exists_: bool, counted: seq<Flags>)
    requires DirShape(e, counted) && (Created(e) <==> !start && exists_) && (Deleted(e) <==> start && !exists_)
    requires !(op.created && op.deleted) && op.isDir && (op.created ==> !exists_) && (op.deleted ==> exists_)
    ensures var more := counted + [op];
      DirShape(Mark(e, op), if Restores(start, op) && !(start && AnyRead(more)) then [] else more)
  {
    AnyOfMore(counted, op);
    assert !AnyRead([]) && !AnyUpdate([]);
    hide AnyRead, AnyUpdate;
  }

  /** So a directory that was there at the start is listed as read exactly if it ever was, however often
      it was recreated; and recreated without ever having been read it is not listed. */
  lemma {:induction false} DirectoryRead(trace: seq<Flags>)
    requires Consistent(true, trace) && forall k :: 0 <= k < |trace| ==> trace[k].isDir
    ensures var e := Entry(trace); (e.Some? && e.value.read <==> AnyRead(trace)) && (e.Some? ==> e.value.isDir)
    ensures trace != [] && trace[|trace| - 1].created && !AnyRead(trace) ==> Entry(trace).None?
  {
    DirectoryEntry(true, trace);
    ReadsCount(trace);
  }

  /** A read of a directory that was there at the start counts for ever. */
  lemma {:induction false} ReadsCount(trace: seq<Flags>)
    ensures AnyRead(DirSince(true, trace)) <==> AnyRead(trace)
    decreases |trace|
  {
    if trace != [] {
      var k := |trace| - 1;
      ReadsCount(trace[..k]);
      assert trace == trace[..k] + [trace[k]];
      AnyOfMore(trace[..k], trace[k]);
      AnyOfMore(DirSince(true, trace[..k]), trace[k]);
    }
  }

  // ---------------------------------------------------------------------------------------------
  // In place

  class AccessListImpl {
    var paths: map<string, Flags>
    var hardlinks: map<FileId, Flags>

    constructor ()
      ensures paths == map[] && hardlinks == map[]
    {
      paths, hardlinks := map[], map[];
    }

    function PathEntry(path: string): Option<Flags>
      reads this
    {
      if path in paths then Some(paths[path]) else None
    }

    /** markAccessed touches the entry of the one path. */
    method MarkAccessed(path: string, op: Flags)
      requires !(op.created && op.deleted)
      modifies this`paths
      ensures PathEntry(path) == Mark(old(PathEntry(path)), op)
      ensures paths - {path} == old(paths) - {path}
    {
      if path !in paths {
        paths := paths[path := op];
        return;
      }
      var flags := UpdatePathFlags(paths[path], op);
      if flags.None? {
        paths := paths - {path};
      } else {
        paths := paths[path := flags.value];
      }
    }

    /** markHardlinkAccessed: entries of hardlinks are never deleted. */
    method MarkHardlinkAccessed(fileId: FileId, op: Flags)
      requires !(op.created && op.deleted)
      modifies this`hardlinks
      ensures hardlinks - {fileId} == old(hardlinks) - {fileId}
      ensures fileId in hardlinks
      ensures hardlinks[fileId]
           == if fileId !in old(hardlinks) then op
              else match UpdatePathFlags(old(hardlinks)[fileId], op)
                case Some(f) => f
                case None => old(hardlinks)[fileId]
    {
      if fileId !in hardlinks {
        hardlinks := hardlinks[fileId := op];
        return;
      }
      var flags := UpdatePathFlags(hardlinks[fileId], op);
      if flags.Some? {
        hardlinks := hardlinks[fileId := flags.value];
      }
    }
  }
}
