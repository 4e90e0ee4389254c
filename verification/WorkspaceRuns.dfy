/** Many clients advancing one workspace: publish (daemon/workspaceroot.go:269-290) and the
    fetch/merge/advance loop of forceMerge (daemon/mux.go:555-619) over the AdvanceWorkspace
    contract (workspacedb.go:128-141). */
module WorkspaceRuns {
  import opened Basics
  import opened Objects
  import opened FileContent
  import opened StoredMerge
  import opened TreeMerge
  import opened MergeWorkspace
  import opened MergePaths
  import MergeLinks

  type ClientId = nat

  /** `base` is the root the client last took over, `local` its own root, and `fetched` the root
      read at the top of the retry loop. */
  datatype Client = Client(base: Workspace, local: Workspace, fetched: Option<Workspace>, nonce: nat)

  datatype Db = Db(root: Workspace, nonce: nat, clients: map<ClientId, Client>)

  datatype Step =
    | Refresh(c: ClientId)                      // adopt the current root
    | Edit(c: ClientId, local: Workspace)       // any local change
    | Fetch(c: ClientId)                        // read the root to merge with
    | Advance(c: ClientId, merged: Workspace)   // try to install a merge
    | Panic(c: ClientId, error: Workspace)      // the merge panics: try to install an error root
    | Publish(c: ClientId)                      // try to install the local root as it is
    | Recreate(root: Workspace)                 // delete the workspace and create it anew

  /** The AdvanceWorkspace contract: the root changes only if the caller's idea of it is current. */
  function AdvanceWorkspace(db: Db, nonce: nat, current: Workspace, next: Workspace): (Db, bool) {
    if nonce == db.nonce && current == db.root then (db.(root := next), true) else (db, false)
  }

  /** What panicRecovery makes of a merge that panicked: a root with nothing but a README. */
  predicate IsErrorRoot(ws: Workspace) {
    && ws.links == map[] && ws.dir.DirKey?
    && ws.dir.entries.Keys == {"README"} && ws.dir.entries["README"].rtype.SmallFile?
  }

  ghost predicate Next(m: Merger, db: Db, step: Step, db': Db) {
    match step
    case Refresh(c) =>
      c in db.clients &&
      db' == db.(clients := db.clients[c := Client(db.root, db.root, None, db.nonce)])
    case Edit(c, local) =>
      c in db.clients &&
      db' == db.(clients := db.clients[c := db.clients[c].(local := local, fetched := None)])
    case Fetch(c) =>
      c in db.clients && db.clients[c].nonce == db.nonce &&
      db' == db.(clients := db.clients[c := db.clients[c].(fetched := Some(db.root))])
    case Advance(c, merged) =>
      c in db.clients && var client := db.clients[c];
      && client.fetched.Some?
      && IsMerge(m, client.base, client.fetched.value, client.local, {}, Some(merged))
      && var (advanced, ok) := AdvanceWorkspace(db, client.nonce, client.fetched.value, merged);
         db' == advanced.(clients := db.clients[c := client.(fetched := None)])
    case Panic(c, error) =>
      c in db.clients && var client := db.clients[c];
      && client.fetched.Some?
      && MergePanics(m, client.base, client.fetched.value, client.local, {}) && IsErrorRoot(error)
      && var (advanced, ok) := AdvanceWorkspace(db, client.nonce, client.fetched.value, error);
         db' == advanced.(clients := db.clients[c := client.(fetched := None)])
    case Publish(c) =>
      c in db.clients && var client := db.clients[c];
      var (advanced, ok) := AdvanceWorkspace(db, client.nonce, client.base, client.local);
      db' == advanced.(clients := if ok then db.clients[c := client.(base := client.local)] else db.clients)
    case Recreate(root) =>
      db' == db.(root := root, nonce := db.nonce + 1)
  }

  /** A run: states joined by steps. */
  ghost predicate IsRun(m: Merger, run: seq<Db>, steps: seq<Step>) {
    && |run| == |steps| + 1
    && forall i :: 0 <= i < |steps| ==> Next(m, run[i], steps[i], run[i + 1])
  }

  function RootNames(db: Db): set<string> {
    Entries(db.root.dir).Keys
  }

  /** The step installs a root on behalf of client c. */
  predicate Installs(step: Step, c: ClientId) {
    (step.Advance? || step.Panic? || step.Publish?) && step.c == c
  }

  /** Every root that replaces another within one incarnation is of a client that opened this
      incarnation, and merges its work with its immediate predecessor, however stale the client's fetch
      was, or is the error root of a merge with that predecessor that panicked. */
  lemma InstalledRootMergesPredecessor(m: Merger, db: Db, step: Step, db': Db)
    requires Next(m, db, step, db') && db'.nonce == db.nonce && db'.root != db.root
    ensures exists c :: c in db.clients && Installs(step, c) && db.clients[c].nonce == db.nonce &&
              var client := db.clients[c];
              if step.Publish? then db.root == client.base && db'.root == client.local
              else if step.Panic? then MergePanics(m, client.base, db.root, client.local, {}) && IsErrorRoot(db'.root)
              else IsMerge(m, client.base, db.root, client.local, {}, Some(db'.root))
  {
    hide IsMerge, MergePanics;
    assert Installs(step, step.c);
  }

  /** A publish installs the client's root if and only if its idea of the workspace is current; otherwise
      nothing changes. */
  lemma PublishesIffCurrent(m: Merger, db: Db, c: ClientId, db': Db)
    requires Next(m, db, Publish(c), db')
    ensures var client := db.clients[c];
      if client.nonce == db.nonce && client.base == db.root then
        db' == db.(root := client.local, clients := db.clients[c := client.(base := client.local)])
      else db' == db
  {
  }

  /** A client that has refreshed publishes what it then edits, whichever incarnation it knew before. */
  lemma RefreshedPublishes(m: Merger, db: Db, c: ClientId, local: Workspace) returns (run: seq<Db>)
    requires c in db.clients
    ensures IsRun(m, run, [Refresh(c), Edit(c, local), Publish(c)]) && run[0] == db
    ensures run[3] == db.(root := local, clients := db.clients[c := Client(local, local, None, db.nonce)])
  {
    var current := Client(db.root, db.root, None, db.nonce);
    var a := db.(clients := db.clients[c := current]);
    var b := a.(clients := a.clients[c := current.(local := local)]);
    var d := b.(root := local, clients := b.clients[c := Client(local, local, None, db.nonce)]);
    assert d.clients == db.clients[c := Client(local, local, None, db.nonce)];
    run := [db, a, b, d];
  }

  /** A merge with the root that was just fetched is installed, by a client of this incarnation. */
  lemma FetchedIsInstalled(m: Merger, db: Db, c: ClientId, merged: Workspace, db1: Db, db2: Db)
    requires Next(m, db, Fetch(c), db1) && Next(m, db1, Advance(c, merged), db2)
    ensures db2.root == merged && db2.nonce == db.nonce
    ensures IsMerge(m, db.clients[c].base, db.root, db.clients[c].local, {}, Some(merged))
  {
    hide IsMerge;
  }

  /** Clients know no incarnation that has not been yet. */
  predicate NoncesKnown(db: Db) {
    forall c :: c in db.clients ==> db.clients[c].nonce <= db.nonce
  }

  lemma StepKeepsNonces(m: Merger, db: Db, step: Step, db': Db, c: ClientId)
    requires Next(m, db, step, db')
    ensures NoncesKnown(db) ==> NoncesKnown(db')
    ensures c in db'.clients <==> c in db.clients
    ensures c in db.clients && step != Refresh(c) ==> db'.clients[c].nonce == db.clients[c].nonce
    ensures db.nonce <= db'.nonce && (step.Recreate? ==> db.nonce < db'.nonce)
  {
    hide IsMerge, MergePanics;
  }

  /** A step leaves all other clients alone.  Of its own client a refresh takes over the root, an edit
      changes its work, and a publish that succeeds makes that its base; nothing else does. */
  lemma ClientsFollowSteps(m: Merger, db: Db, step: Step, db': Db, c: ClientId)
    requires Next(m, db, step, db') && c in db.clients
    ensures var was, now := db.clients[c], db'.clients[c];
      && (!StepOf(step, c) ==> now == was)
      && now.base == (if step == Refresh(c) then db.root
                      else if step == Publish(c) && was.nonce == db.nonce && was.base == db.root then was.local
                      else was.base)
      && now.local == (if step == Refresh(c) then db.root
                       else if step.Edit? && step.c == c then step.local else was.local)
      && (StepOf(step, c) && !step.Publish? ==> now.fetched == if step.Fetch? then Some(db.root) else None)
  {
    hide IsMerge, MergePanics;
  }

  predicate StepOf(step: Step, c: ClientId) {
    !step.Recreate? && step.c == c
  }

  /** A client of an earlier incarnation, until it refreshes, takes no step that changes the root. */
  lemma {:induction false} StaleStaysOut(m: Merger, run: seq<Db>, steps: seq<Step>, i: nat, j: nat, c: ClientId)
    requires IsRun(m, run, steps) && i <= j < |steps|
    requires c in run[i].clients ==> run[i].clients[c].nonce < run[i].nonce
    requires forall t :: i <= t <= j ==> steps[t] != Refresh(c)
    ensures StepOf(steps[j], c) ==> run[j + 1].root == run[j].root && !steps[j].Fetch?
    ensures c in run[j].clients ==> run[j].clients[c].nonce < run[j].nonce
    decreases j
  {
    if i < j {
      StaleStaysOut(m, run, steps, i, j - 1, c);
      assert Next(m, run[j - 1], steps[j - 1], run[j]);
      StepKeepsNonces(m, run[j - 1], steps[j - 1], run[j], c);
    }
    assert Next(m, run[j], steps[j], run[j + 1]);
    hide Next;
    if StepOf(steps[j], c) {
      StaleStep(m, run[j], steps[j], run[j + 1], c);
    }
  }

  lemma StaleStep(m: Merger, db: Db, step: Step, db': Db, c: ClientId)
    requires Next(m, db, step, db') && StepOf(step, c) && (c in db.clients ==> db.clients[c].nonce < db.nonce)
    ensures db'.root == db.root && !step.Fetch?
  {
    hide IsMerge, MergePanics;
  }

  lemma {:induction false} NoncesStayKnown(m: Merger, run: seq<Db>, steps: seq<Step>, i: nat)
    requires IsRun(m, run, steps) && NoncesKnown(run[0]) && i < |run|
    ensures NoncesKnown(run[i])
  {
    if i > 0 {
      NoncesStayKnown(m, run, steps, i - 1);
      assert Next(m, run[i - 1], steps[i - 1], run[i]);
      StepKeepsNonces(m, run[i - 1], steps[i - 1], run[i], 0);
    }
  }

  /** Between the moment that a workspace is created anew and a client's next refresh, no step of that
      client changes the root, or even reads it to merge with, though it may be the one it knows. */
  lemma RecreatedIsNotAdvanced(m: Merger, run: seq<Db>, steps: seq<Step>, i: nat, j: nat, c: ClientId)
    requires IsRun(m, run, steps) && NoncesKnown(run[0]) && i < j < |steps|
    requires steps[i].Recreate? && StepOf(steps[j], c) && forall t :: i < t <= j ==> steps[t] != Refresh(c)
    ensures run[j + 1].root == run[j].root && !steps[j].Fetch?
  {
    NoncesStayKnown(m, run, steps, i);
    assert Next(m, run[i], steps[i], run[i + 1]);
    StepKeepsNonces(m, run[i], steps[i], run[i + 1], c);
    hide Next, NoncesKnown;
    StaleStaysOut(m, run, steps, i + 1, j, c);
  }

  /** The names of a root after a step are those of the merge formula, for the installing client, or
      README alone. */
  lemma InstalledNames(m: Merger, db: Db, step: Step, db': Db)
    requires Next(m, db, step, db') && db'.nonce == db.nonce && db'.root != db.root
    ensures (step.Advance? || step.Panic? || step.Publish?) && step.c in db.clients
    ensures RootNames(db') == if step.Panic? then {"README"} else
              MergedNames(db.clients[step.c].base.dir, db.root.dir, db.clients[step.c].local.dir)
  {
    InstalledRootMergesPredecessor(m, db, step, db');
    var client := db.clients[step.c];
    if step.Advance? {
      assert Entries(db'.root.dir) == MergedEntries(m, true, client.base.dir, db.root.dir, client.local.dir, {});
    }
  }

  /** The installing client had deleted n: its base held the name and its own root does not. */
  predicate Deletes(db: Db, step: Step, n: string) {
    (step.Advance? || step.Panic? || step.Publish?) && step.c in db.clients &&
    n in Entries(db.clients[step.c].base.dir) && n !in Entries(db.clients[step.c].local.dir)
  }

  predicate Adds(db: Db, step: Step, n: string) {
    (step.Advance? || step.Panic? || step.Publish?) && step.c in db.clients &&
    n !in Entries(db.clients[step.c].base.dir) && n in Entries(db.clients[step.c].local.dir)
  }

  /** The step replaces the root by an error root. */
  predicate Wipes(db: Db, step: Step, db': Db) {
    step.Panic? && db'.root != db.root
  }

  /** A step loses only names that its client had deleted, if and only if it does not wipe, or wipes
      nothing but README and names that its client had deleted. */
  lemma StepLosesOnlyDeletedIff(m: Merger, db: Db, step: Step, db': Db)
    requires Next(m, db, step, db') && db'.nonce == db.nonce
    ensures (forall n :: n in RootNames(db) && n !in RootNames(db') ==> Deletes(db, step, n))
       <==> (Wipes(db, step, db') ==> forall n :: n in RootNames(db) && n != "README" ==> Deletes(db, step, n))
  {
    if db'.root != db.root {
      InstalledNames(m, db, step, db');
    }
  }

  /** Over every run of any number of clients: a name that disappears from the root was deleted by
      a client that published, or wiped out by a merge that panicked; a name that appears was added by
      a client, or is the README of such a merge. */
  lemma {:induction false} NoLostAdditions(m: Merger, run: seq<Db>, steps: seq<Step>, i: nat, j: nat, n: string)
    requires IsRun(m, run, steps)
    requires i <= j < |run| && run[i].nonce == run[j].nonce
    ensures n in RootNames(run[i]) && n !in RootNames(run[j]) ==>
              exists t :: i <= t < j && (Deletes(run[t], steps[t], n) || Wipes(run[t], steps[t], run[t + 1]))
    ensures n !in RootNames(run[i]) && n in RootNames(run[j]) ==>
              exists t :: i <= t < j &&
                (Adds(run[t], steps[t], n) || (Wipes(run[t], steps[t], run[t + 1]) && n == "README"))
    decreases j - i
  {
    if i < j {
      NonceGrows(m, run, steps, i, j - 1);
      assert Next(m, run[j - 1], steps[j - 1], run[j]);
      NoLostAdditions(m, run, steps, i, j - 1, n);
      var k := j - 1;
      assert run[k + 1] == run[j];
      StepKeepsName(m, run[k], steps[k], run[j], n);
      hide Next, Deletes, Adds, Wipes, RootNames;
    }
  }

  lemma StepKeepsName(m: Merger, db: Db, step: Step, db': Db, n: string)
    requires Next(m, db, step, db') && db'.nonce == db.nonce
    ensures n in RootNames(db) && n !in RootNames(db') ==> Deletes(db, step, n) || Wipes(db, step, db')
    ensures n !in RootNames(db) && n in RootNames(db') ==>
      Adds(db, step, n) || (Wipes(db, step, db') && n == "README")
  {
    if db'.root != db.root {
      InstalledNames(m, db, step, db');
    }
  }

  // ---------------------------------------------------------------------------------------------
  // Paths below the root

  /** The installing client had deleted something on the way to the path, or the path itself. */
  ghost predicate DeletesPath(db: Db, step: Step, path: Path) {
    (step.Advance? || step.Panic? || step.Publish?) && step.c in db.clients &&
    DeletesOn(db.clients[step.c].base.dir, db.clients[step.c].local.dir, path)
  }

  ghost predicate AddsPath(db: Db, step: Step, path: Path) {
    (step.Advance? || step.Panic? || step.Publish?) && step.c in db.clients &&
    AddsOn(db.clients[step.c].base.dir, db.clients[step.c].local.dir, path)
  }

  /** The step merges a root with which its client's work clashes on the way to the path. */
  predicate ClashesOnPath(db: Db, step: Step, path: Path) {
    step.Advance? && step.c in db.clients &&
    Clashes(db.clients[step.c].base.dir, db.root.dir, db.clients[step.c].local.dir, path)
  }

  lemma StepKeepsPath(m: Merger, db: Db, step: Step, db': Db, path: Path)
    requires Next(m, db, step, db') && db'.nonce == db.nonce && path != []
    ensures Has(db.root.dir, path) && !Has(db'.root.dir, path) ==>
      DeletesPath(db, step, path) || Wipes(db, step, db') || ClashesOnPath(db, step, path)
    ensures !Has(db.root.dir, path) && Has(db'.root.dir, path) ==>
      AddsPath(db, step, path) || (Wipes(db, step, db') && path == ["README"]) || ClashesOnPath(db, step, path)
  {
    if db'.root != db.root {
      InstalledRootMergesPredecessor(m, db, step, db');
      var client := db.clients[step.c];
      var base, local := client.base.dir, client.local.dir;
      if step.Publish? {
        WholePath(base, local, path);
      } else if step.Panic? {
        ErrorRootPaths(db'.root, path);
      } else if !Clashes(base, db.root.dir, local, path) {
        assert db'.root.dir == MergeDirectory(m, true, base, db.root.dir, local, ZeroKey, {});
        PathsAreKept(m, true, base, db.root.dir, local, ZeroKey, path);
      }
      hide Next, DeletesOn, MergeDirectory;
    }
  }

  lemma ErrorRootPaths(ws: Workspace, path: Path)
    requires IsErrorRoot(ws) && path != []
    ensures Has(ws.dir, path) ==> path == ["README"]
  {
    FirstDecides(ws.dir, path);
    if |path| > 1 {
      NowhereBelowZero(path[1..]);
    }
  }

  /** Over every run, at every depth: what disappears from the root, or the way to it, was deleted by a
      client that published, wiped out by a merge that panicked, or lost where the two sides of a
      merge have no common directory; what appears was added, or came the same ways. */
  lemma {:induction false} NoLostPaths(m: Merger, run: seq<Db>, steps: seq<Step>, i: nat, j: nat, path: Path)
    requires IsRun(m, run, steps) && path != []
    requires i <= j < |run| && run[i].nonce == run[j].nonce
    ensures Has(run[i].root.dir, path) && !Has(run[j].root.dir, path) ==>
              exists t :: i <= t < j && (DeletesPath(run[t], steps[t], path) || Wipes(run[t], steps[t], run[t + 1])
                                         || ClashesOnPath(run[t], steps[t], path))
    ensures !Has(run[i].root.dir, path) && Has(run[j].root.dir, path) ==>
              exists t :: i <= t < j &&
                (AddsPath(run[t], steps[t], path) || (Wipes(run[t], steps[t], run[t + 1]) && path == ["README"])
                 || ClashesOnPath(run[t], steps[t], path))
    decreases j - i
  {
    if i < j {
      NonceGrows(m, run, steps, i, j - 1);
      assert Next(m, run[j - 1], steps[j - 1], run[j]);
      NoLostPaths(m, run, steps, i, j - 1, path);
      var k := j - 1;
      assert run[k + 1] == run[j];
      assert run[k].nonce == run[j].nonce by {
        StepKeepsNonces(m, run[k], steps[k], run[j], 0);
      }
      StepKeepsPath(m, run[k], steps[k], run[j], path);
      hide Next, DeletesPath, AddsPath, ClashesOnPath, Wipes, Has;
    }
  }

  lemma {:induction false} NonceGrows(m: Merger, run: seq<Db>, steps: seq<Step>, i: nat, j: nat)
    requires IsRun(m, run, steps) && i <= j < |run|
    ensures run[i].nonce <= run[j].nonce
    decreases j - i
  {
    if i < j {
      NonceGrows(m, run, steps, i, j - 1);
      assert Next(m, run[j - 1], steps[j - 1], run[j]);
    }
  }

  /** Every root and every client's view counts its hardlinks correctly. */
  ghost predicate AllConsistent(db: Db) {
    && Consistent(db.root)
    && forall c :: c in db.clients ==>
         && Consistent(db.clients[c].base) && Consistent(db.clients[c].local)
         && (db.clients[c].fetched.Some? ==> Consistent(db.clients[c].fetched.value))
  }

  /** The merge of an Advance step leaves no uncounted legs, and an Edit keeps the counts right. */
  ghost predicate CountsLegs(m: Merger, db: Db, step: Step) {
    match step
    case Edit(_, local) => Consistent(local)
    case Recreate(root) => Consistent(root)
    case Advance(c, _) =>
      c in db.clients && db.clients[c].fetched.Some? ==>
        forall f :: Drift(m, db.clients[c].base, db.clients[c].fetched.value, db.clients[c].local, {}, f) == 0
    case _ => true
  }

  /** Over every such run the hardlink table published with every root counts exactly the legs of
      its tree. */
  lemma {:induction false} RootsStayConsistent(m: Merger, run: seq<Db>, steps: seq<Step>, j: nat)
    requires IsRun(m, run, steps) && j < |run|
    requires AllConsistent(run[0])
    requires forall i :: 0 <= i < |steps| ==> CountsLegs(m, run[i], steps[i])
    ensures AllConsistent(run[j])
  {
    if j > 0 {
      RootsStayConsistent(m, run, steps, j - 1);
      assert Next(m, run[j - 1], steps[j - 1], run[j]) && CountsLegs(m, run[j - 1], steps[j - 1]);
      StepStaysConsistent(m, run[j - 1], steps[j - 1], run[j]);
    }
  }

  lemma StepStaysConsistent(m: Merger, db: Db, step: Step, db': Db)
    requires Next(m, db, step, db') && AllConsistent(db) && CountsLegs(m, db, step)
    ensures AllConsistent(db')
  {
    if step.Panic? {
      ErrorRootIsConsistent(step.error);
    }
    if step.Advance? {
      var client := db.clients[step.c];
      ConsistentIffNoDrift(m, client.base, client.fetched.value, client.local, {}, step.merged);
    }
  }

  lemma ErrorRootIsConsistent(ws: Workspace)
    requires IsErrorRoot(ws)
    ensures Consistent(ws)
  {
    var r := ws.dir.entries["README"];
    assert ws.dir == DirKey(map["README" := r]);
    forall f: FileId ensures MergeLinks.Legs(ws.dir, f) == 0 {
      LegsOfSingleton("README", r, f);
    }
  }

  /** The step's merge panics over the bytes of a file. */
  ghost predicate PanicsOverBytes(m: Merger, db: Db, step: Step) {
    step.Panic? && step.c in db.clients && var client := db.clients[step.c];
    client.fetched.Some? && BytesPanic(m, client.base, client.fetched.value, client.local, {})
  }

  /** With such counts every merge that panics does so over the bytes of a file; so a name vanishes only
      if a publishing client deleted it, or if such a merge replaces the root. */
  lemma ConsistentRunsLoseNothing(m: Merger, run: seq<Db>, steps: seq<Step>, i: nat, j: nat, n: string)
    requires IsRun(m, run, steps) && AllConsistent(run[0])
    requires forall t :: 0 <= t < |steps| ==> CountsLegs(m, run[t], steps[t])
    requires i <= j < |run| && run[i].nonce == run[j].nonce
    ensures forall t :: 0 <= t < |steps| && steps[t].Panic? ==> PanicsOverBytes(m, run[t], steps[t])
    ensures n in RootNames(run[i]) && n !in RootNames(run[j]) ==>
              exists t :: i <= t < j &&
                (Deletes(run[t], steps[t], n) || WipesOverBytes(m, run[t], steps[t], run[t + 1]))
    ensures n !in RootNames(run[i]) && n in RootNames(run[j]) ==>
              exists t :: i <= t < j &&
                (Adds(run[t], steps[t], n) || (WipesOverBytes(m, run[t], steps[t], run[t + 1]) && n == "README"))
  {
    forall t | 0 <= t < |steps| && steps[t].Panic? ensures PanicsOverBytes(m, run[t], steps[t]) {
      RootsStayConsistent(m, run, steps, t);
      assert Next(m, run[t], steps[t], run[t + 1]);
      var client := run[t].clients[steps[t].c];
      ConsistentSidesMerge(m, client.base, client.fetched.value, client.local, {});
    }
    NoLostAdditions(m, run, steps, i, j, n);
    hide PanicsOverBytes, Deletes, Adds;
  }

  ghost predicate WipesOverBytes(m: Merger, db: Db, step: Step, db': Db) {
    Wipes(db, step, db') && PanicsOverBytes(m, db, step)
  }

  // ---------------------------------------------------------------------------------------------
  // A truncated file

  function FileRecord(f: Blocks, time: Time): Record {
    Record(MediumFile, DataKey(MediumFile, f), f.Length(), 0, 0, 0, 0, time, time, 3)
  }

  /** A workspace with one file, "f", and no hardlinks. */
  function OneFile(f: Blocks, time: Time): Workspace {
    Workspace(map[], DirKey(map["f" := FileRecord(f, time)]))
  }

  lemma OneFileIsConsistent(f: Blocks, time: Time)
    ensures Consistent(OneFile(f, time))
  {
    forall id: FileId ensures MergeLinks.Legs(OneFile(f, time).dir, id) == 0 {
      LegsOfSingleton("f", FileRecord(f, time), id);
    }
  }

  /** One client cut the file and another left a longer one: the merge of the two panics if and only if
      more is stored of the cut file than of the longer one, where the merge looks.  It takes a file
      whose last block still holds what was cut off. */
  lemma TruncatedMergePanicsIff(m: Merger, f: Blocks, n: nat, held: bool, o: Blocks)
    requires f.WellFormed() && o.WellFormed() && f.Length() != n < o.Length() && o != f
    ensures var cut := f.Truncate(n, held);
      && (MergePanics(m, OneFile(f, 1), OneFile(cut, 2), OneFile(o, 3), {}) <==> Overlong(cut, o))
      && (Overlong(cut, o) ==> !cut.Clean())
  {
    var cut := f.Truncate(n, held);
    TruncateKeeps(f, n, held);
    CleanIsShorter(cut, o);
    hide Blocks.Truncate, Overlong, Blocks.Clean;
    OneFileIsConsistent(cut, 2);
    OneFileIsConsistent(o, 3);
    ConsistentSidesMerge(m, OneFile(f, 1), OneFile(cut, 2), OneFile(o, 3), {});
    OneFilePanics(m, f, cut, o);
  }

  lemma CleanIsShorter(cut: Blocks, o: Blocks)
    requires cut.WellFormed() && o.WellFormed() && cut.Length() < o.Length()
    ensures Overlong(cut, o) ==> !cut.Clean()
  {
    if cut.Clean() {
      CleanIsWhole(cut);
      WholePrefix(o);
    }
  }

  lemma OneFilePanics(m: Merger, f: Blocks, cut: Blocks, o: Blocks)
    requires cut.WellFormed() && o.WellFormed() && cut.Length() < o.Length() && f.Length() != cut.Length() && o != f
    ensures BytesPanic(m, OneFile(f, 1), OneFile(cut, 2), OneFile(o, 3), {}) <==> Overlong(cut, o)
  {
    hide Overlong;
    var base, remote, local := OneFile(f, 1), OneFile(cut, 2), OneFile(o, 3);
    assert FilePanics(Some(FileRecord(f, 1)), FileRecord(cut, 2), FileRecord(o, 3)) <==> Overlong(cut, o);
    hide FilePanics;
    OnlyNamePanics(m, base.dir, remote.dir, local.dir, "f");
    assert forall id :: !LinkPanics(base.links, remote.links, local.links, id);
  }

  lemma OnlyNamePanics(m: Merger, base: Key, remote: Key, local: Key, n: string)
    requires Entries(base).Keys == Entries(remote).Keys == Entries(local).Keys == {n}
    requires !IsDeep(Some(Entries(base)[n]), Entries(remote)[n], Entries(local)[n])
    ensures MergeLinks.FilesPanic(m, base, remote, local, ZeroKey, {})
       <==> FilePanics(Some(Entries(base)[n]), Entries(remote)[n], Entries(local)[n])
  {
    hide FilePanics;
    assert MergeLinks.NamePanics(m, base, remote, local, {}, n)
      <==> FilePanics(Some(Entries(base)[n]), Entries(remote)[n], Entries(local)[n]);
    assert forall x :: MergeLinks.NamePanics(m, base, remote, local, {}, x) ==> x == n;
  }

  function Pair(root: Workspace, first: Client, second: Client): Db {
    Db(root, 0, map[1 := first, 2 := second])
  }

  /** Client 1 cuts the file and publishes; client 2 leaves a longer one and merges. */
  function TruncatingRun(f: Workspace, cut: Workspace, o: Workspace, error: Workspace): seq<Db> {
    [Pair(f, Client(f, f, None, 0), Client(f, f, None, 0)),
     Pair(f, Client(f, cut, None, 0), Client(f, f, None, 0)),
     Pair(f, Client(f, cut, None, 0), Client(f, o, None, 0)),
     Pair(cut, Client(cut, cut, None, 0), Client(f, o, None, 0)),
     Pair(cut, Client(cut, cut, None, 0), Client(f, o, Some(cut), 0)),
     Pair(error, Client(cut, cut, None, 0), Client(f, o, None, 0))]
  }

  function TruncatingSteps(cut: Workspace, o: Workspace, error: Workspace): seq<Step> {
    [Edit(1, cut), Edit(2, o), Publish(1), Fetch(2), Panic(2, error)]
  }

  lemma TruncatingRunIsRun(m: Merger, f: Workspace, cut: Workspace, o: Workspace, error: Workspace)
    requires MergePanics(m, f, cut, o, {}) && IsErrorRoot(error)
    ensures IsRun(m, TruncatingRun(f, cut, o, error), TruncatingSteps(cut, o, error))
  {
    hide MergePanics, IsErrorRoot, Next;
    var run, steps := TruncatingRun(f, cut, o, error), TruncatingSteps(cut, o, error);
    var first, second := Client(f, f, None, 0), Client(f, o, None, 0);
    Edits(m, f, first, first, cut);
    Edits(m, f, first.(local := cut), first, o);
    Publishes(m, f, first.(local := cut), second);
    FetchesSecond(m, cut, Client(cut, cut, None, 0), second);
    PanicsSecond(m, cut, Client(cut, cut, None, 0), second.(fetched := Some(cut)), error);
    forall t | 0 <= t < 5 ensures Next(m, run[t], steps[t], run[t + 1]) {
      assert t == 0 || t == 1 || t == 2 || t == 3 || t == 4;
    }
  }

  lemma Edits(m: Merger, root: Workspace, a: Client, b: Client, local: Workspace)
    ensures Next(m, Pair(root, a, b), Edit(1, local), Pair(root, a.(local := local, fetched := None), b))
    ensures Next(m, Pair(root, a, b), Edit(2, local), Pair(root, a, b.(local := local, fetched := None)))
  {
    PairClients(a, b, a.(local := local, fetched := None));
    PairClients(a, b, b.(local := local, fetched := None));
  }

  lemma PairClients(a: Client, b: Client, c: Client)
    ensures map[1 := a, 2 := b][1 := c] == map[1 := c, 2 := b] && map[1 := a, 2 := b][2 := c] == map[1 := a, 2 := c]
  {
  }

  lemma Publishes(m: Merger, root: Workspace, a: Client, b: Client)
    requires a.base == root && a.nonce == 0
    ensures Next(m, Pair(root, a, b), Publish(1), Pair(a.local, a.(base := a.local), b))
  {
    PairClients(a, b, a.(base := a.local));
  }

  lemma FetchesSecond(m: Merger, root: Workspace, a: Client, b: Client)
    requires b.nonce == 0
    ensures Next(m, Pair(root, a, b), Fetch(2), Pair(root, a, b.(fetched := Some(root))))
  {
    PairClients(a, b, b.(fetched := Some(root)));
  }

  lemma PanicsSecond(m: Merger, root: Workspace, a: Client, b: Client, error: Workspace)
    requires b.nonce == 0 && b.fetched == Some(root) && MergePanics(m, b.base, root, b.local, {}) && IsErrorRoot(error)
    ensures Next(m, Pair(root, a, b), Panic(2, error), Pair(error, a, b.(fetched := None)))
  {
    hide MergePanics;
    PairClients(a, b, b.(fetched := None));
  }

  /** So runs in which all roots count their hardlinks correctly, having none, still lose names: of every
      such pair of files the only name vanishes, and nobody had deleted it. */
  lemma TruncationLosesNames(m: Merger, f: Blocks, n: nat, o: Blocks, error: Workspace)
    requires f.WellFormed() && o.WellFormed() && f.Length() != n < o.Length() && o != f && IsErrorRoot(error)
    requires Overlong(f.Truncate(n, false), o)
    ensures var base, cut, other := OneFile(f, 1), OneFile(f.Truncate(n, false), 2), OneFile(o, 3);
      var run, steps := TruncatingRun(base, cut, other, error), TruncatingSteps(cut, other, error);
      && IsRun(m, run, steps) && AllConsistent(run[0]) && run[0].nonce == run[5].nonce
      && (forall t :: 0 <= t < 5 ==> CountsLegs(m, run[t], steps[t]) && !Deletes(run[t], steps[t], "f"))
      && RootNames(run[0]) == {"f"} && RootNames(run[5]) == {"README"}
  {
    var base, cut, other := OneFile(f, 1), OneFile(f.Truncate(n, false), 2), OneFile(o, 3);
    hide Blocks.Truncate, Overlong, IsRun, MergePanics, AllConsistent, Consistent, CountsLegs, Deletes;
    TruncatedMergePanicsIff(m, f, n, false, o);
    TruncatingRunIsRun(m, base, cut, other, error);
    OneFileIsConsistent(f, 1);
    OneFileIsConsistent(f.Truncate(n, false), 2);
    OneFileIsConsistent(o, 3);
    TruncatingRunKeeps(m, base, cut, other, error);
  }

  /** The run keeps the counts right, and no step is of a client that deleted the name. */
  lemma TruncatingRunKeeps(m: Merger, f: Workspace, cut: Workspace, o: Workspace, error: Workspace)
    requires Consistent(f) && Consistent(cut) && Consistent(o)
    requires "f" in Entries(cut.dir) && "f" in Entries(o.dir)
    ensures var run, steps := TruncatingRun(f, cut, o, error), TruncatingSteps(cut, o, error);
      && AllConsistent(run[0])
      && forall t :: 0 <= t < 5 ==> CountsLegs(m, run[t], steps[t]) && !Deletes(run[t], steps[t], "f")
  {
    hide Consistent;
    var run, steps := TruncatingRun(f, cut, o, error), TruncatingSteps(cut, o, error);
    forall t | 0 <= t < 5 ensures CountsLegs(m, run[t], steps[t]) && !Deletes(run[t], steps[t], "f") {
      assert t == 0 || t == 1 || t == 2 || t == 3 || t == 4;
    }
  }

  /** There are such files: three bytes cut to one, and two bytes written by the other client. */
  lemma SomeTruncationLosesNames(m: Merger, error: Workspace)
    requires IsErrorRoot(error)
    ensures exists run: seq<Db>, steps: seq<Step> ::
      && IsRun(m, run, steps) && |steps| == 5 && AllConsistent(run[0]) && run[0].nonce == run[5].nonce
      && (forall t :: 0 <= t < 5 ==> CountsLegs(m, run[t], steps[t]) && !Deletes(run[t], steps[t], "f"))
      && RootNames(run[0]) == {"f"} && RootNames(run[5]) == {"README"}
  {
    hide IsRun, AllConsistent, CountsLegs, Deletes;
    var f, o := Blocks([[1, 2, 3]], 3), Blocks([[4, 5]], 2);
    TruncatedFileIsOverlong();
    TruncationLosesNames(m, f, 1, o, error);
    var base, cut, other := OneFile(f, 1), OneFile(f.Truncate(1, false), 2), OneFile(o, 3);
    var run, steps := TruncatingRun(base, cut, other, error), TruncatingSteps(cut, other, error);
    assert |steps| == 5;
  }

  // ---------------------------------------------------------------------------------------------
  // A run that loses a name

  function Empty(): Workspace {
    Workspace(map[], DirKey(map[]))
  }

  function WithFile(): Workspace {
    Workspace(map[], DirKey(map["d" := PlainFile(3)]))
  }

  function WithLeg(links: map<FileId, Link>): Workspace {
    Workspace(links, OneLeg(4))
  }

  function TwoClients(root: Workspace, second: Option<Workspace>, third: Option<Workspace>): Db {
    Db(root, 0, map[2 := Client(WithFile(), WithFile(), second, 0), 3 := Client(Empty(), Empty(), third, 0)])
  }

  function LosingRun(error: Workspace): seq<Db> {
    [TwoClients(WithLeg(OneLink()), None, None),
     TwoClients(WithLeg(OneLink()), Some(WithLeg(OneLink())), None),
     TwoClients(WithLeg(map[]), None, None),
     TwoClients(WithLeg(map[]), None, Some(WithLeg(map[]))),
     TwoClients(error, None, None)]
  }

  function LosingSteps(error: Workspace): seq<Step> {
    [Fetch(2), Advance(2, WithLeg(map[])), Fetch(3), Panic(3, error)]
  }

  lemma Fetches(m: Merger, root: Workspace)
    ensures Next(m, TwoClients(root, None, None), Fetch(2), TwoClients(root, Some(root), None))
    ensures Next(m, TwoClients(root, None, None), Fetch(3), TwoClients(root, None, Some(root)))
  {
    var db := TwoClients(root, None, None);
    assert db.clients[2 := db.clients[2].(fetched := Some(root))] == TwoClients(root, Some(root), None).clients;
    assert db.clients[3 := db.clients[3].(fetched := Some(root))] == TwoClients(root, None, Some(root)).clients;
  }

  lemma LosesEntry(m: Merger)
    ensures Next(m, TwoClients(WithLeg(OneLink()), Some(WithLeg(OneLink())), None), Advance(2, WithLeg(map[])),
                 TwoClients(WithLeg(map[]), None, None))
  {
    hide IsMerge, Consistent, OneLeg, OneLink;
    ReplacedByDirectoryDropsCount(m);
    var db := TwoClients(WithLeg(OneLink()), Some(WithLeg(OneLink())), None);
    assert db.clients[2 := db.clients[2].(fetched := None)] == TwoClients(WithLeg(map[]), None, None).clients;
  }

  lemma LosesNames(m: Merger, error: Workspace)
    requires IsErrorRoot(error)
    ensures Next(m, TwoClients(WithLeg(map[]), None, Some(WithLeg(map[]))), Panic(3, error),
                 TwoClients(error, None, None))
  {
    UnlistedLegPanics(m);
    hide MergePanics;
    var db := TwoClients(WithLeg(map[]), None, Some(WithLeg(map[])));
    assert db.clients[3 := db.clients[3].(fetched := None)] == TwoClients(error, None, None).clients;
  }

  /** All is consistent at first.  Client 2 merges a directory with a leg over the file that it still
      has; the leg arrives without a table entry.  Client 3, which never had the directory, merges that
      root, panics, and installs the error root: "d" is gone, and nobody had deleted it. */
  lemma PanicLosesNames(m: Merger, error: Workspace)
    requires IsErrorRoot(error)
    ensures var run, steps := LosingRun(error), LosingSteps(error);
            && IsRun(m, run, steps) && AllConsistent(run[0]) && run[0].nonce == run[4].nonce
            && "d" in RootNames(run[0]) && RootNames(run[4]) == {"README"}
            && forall t :: 0 <= t < 4 ==> !Deletes(run[t], steps[t], "d")
  {
    hide Next, Consistent, OneLink;
    var run, steps := LosingRun(error), LosingSteps(error);
    Fetches(m, WithLeg(OneLink()));
    Fetches(m, WithLeg(map[]));
    LosesEntry(m);
    LosesNames(m, error);
    NoLegIsConsistent(3);
    OneLegIsConsistent(4);
    forall t | 0 <= t < 4 ensures Next(m, run[t], steps[t], run[t + 1]) {
      assert t == 0 || t == 1 || t == 2 || t == 3;
    }
  }

  lemma UnlistedLegPanics(m: Merger)
    ensures var empty, bad := Workspace(map[], DirKey(map[])), Workspace(map[], OneLeg(4));
            MergePanics(m, empty, bad, empty, {})
  {
    var empty, bad := DirKey(map[]), OneLeg(4);
    assert "d" in MergeLinks.AllNames(bad, empty);
    assert "x" in Entries(Entries(bad)["d"].id);
    assert !MergeLinks.CheckedName(m, empty, bad, empty, {}, "d", {});
    assert !MergeLinks.Checked(m, empty, bad, empty, ZeroKey, {}, {});
    var none: map<FileId, Link> := map[];
    assert none.Keys + none.Keys == {};
  }
}
