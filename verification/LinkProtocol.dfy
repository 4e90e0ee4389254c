/** Hardlink counts as a bubbling protocol: directories hold pending deltas, flushing moves them to
    the parent, and the root applies them to the table (daemon/hardlinktable.go:22-35,
    daemon/directory.go, daemon/directory_DOWN.go, daemon/workspaceroot.go). */
module LinkProtocol {
  import opened Basics
  import opened HardlinkTable
  import opened Sums

  type DirId = nat
  type LegId = (DirId, string)

  const ROOT: DirId := 0

  /** Every leg in every directory, the pending deltas of every directory (also of orphaned ones),
      the parents of the directories that are in the tree, and the legs already counted by
      link_DOWN but not yet put into their directory. */
  datatype State = State(table: Table, legs: map<LegId, FileId>, pending: map<DirId, Delta>,
                         parent: map<DirId, DirId>, promised: multiset<FileId>)
  {
    function Pending(d: DirId): Delta {
      if d in pending then pending[d] else map[]
    }
  }

  datatype Step =
    | NewHardlink(leg: LegId, f: FileId, inode: InodeId)  // a file becomes the first leg
    | Promise(d: DirId, f: FileId)                        // link_DOWN counts a further leg
    | PutLeg(leg: LegId, f: FileId)                       // link_DOWN puts it into place
    | Unlink(leg: LegId)                                  // delChild_ or orphanChild_ of a leg
    | Move(from: LegId, to: LegId)                        // rename, within or across directories
    | Normalize(leg: LegId)                               // the last leg becomes a plain file
    | GiveInode(f: FileId, inode: InodeId)                // a leg is loaded
    | Flush(d: DirId)                                     // to the parent, or to the table below the root
    | Publish                                             // the root's own deltas reach the table
    | AddDir(d: DirId, p: DirId)                          // a new or renamed directory
    | Orphan(d: DirId)                                    // a removed directory keeps its deltas

  /** What the callers guarantee, and the asserts they rely on. */
  predicate Enabled(s: State, step: Step) {
    match step
    case NewHardlink(leg, f, inode) =>
      leg !in s.legs && f !in s.table.links && inode != INODE_ID_INVALID && inode !in s.table.inodes
    case Promise(d, f) => f in s.table.links
    case PutLeg(leg, f) => leg !in s.legs && f in s.promised
    case Unlink(leg) => leg in s.legs && s.legs[leg] in s.table.links
    case Move(from, to) =>
      from in s.legs && from != to && (to in s.legs ==> s.legs[to] in s.table.links)
    case Normalize(leg) => leg in s.legs && s.legs[leg] in s.table.links
    case GiveInode(f, inode) =>
      f in s.table.links && inode != INODE_ID_INVALID && inode !in s.table.inodes
    case Flush(d) => d in s.parent && s.parent[d] != d
    case Publish => true
    case AddDir(d, p) => d != p
    case Orphan(d) => true
  }

  /** hardlinkInc_ and hardlinkDec_: the directory's delta and the table's entry change together. */
  function IncIn(s: State, d: DirId, f: FileId): State
    requires f in s.table.links
  {
    s.(table := s.table.Set(f, s.table.links[f].Inc()), pending := s.pending[d := IncDelta(s.Pending(d), f)])
  }

  function DecIn(s: State, d: DirId, f: FileId): State
    requires f in s.table.links
  {
    s.(table := s.table.Set(f, s.table.links[f].Dec()), pending := s.pending[d := DecDelta(s.Pending(d), f)])
  }

  function RemoveLeg(s: State, leg: LegId): State
    requires leg in s.legs && s.legs[leg] in s.table.links
  {
    DecIn(s.(legs := s.legs - {leg}), leg.0, s.legs[leg])
  }

  /** The pending deltas of d reach the table. */
  function ApplyDir(s: State, d: DirId): State {
    s.(table := s.table.Absorb(s.Pending(d)), pending := s.pending[d := map[]])
  }

  function Do(s: State, step: Step): State
    requires Enabled(s, step)
  {
    match step
    case NewHardlink(leg, f, inode) =>
      s.(table := s.table.New(f, inode), legs := s.legs[leg := f])
    case Promise(d, f) =>
      IncIn(s, d, f).(promised := s.promised + multiset{f})
    case PutLeg(leg, f) =>
      s.(legs := s.legs[leg := f], promised := s.promised - multiset{f})
    case Unlink(leg) =>
      RemoveLeg(s, leg)
    case Move(from, to) =>
      var f := s.legs[from];
      var s' := if to in s.legs then RemoveLeg(s, to) else s;
      s'.(legs := (s'.legs - {from})[to := f])
    case Normalize(leg) =>
      var f := s.legs[leg];
      RemoveLeg(s.(table := s.table.Invalidate(f)), leg)
    case GiveInode(f, inode) =>
      s.(table := s.table.GiveInode(f, inode))
    case Flush(d) =>
      var p := s.parent[d];
      if p == ROOT then ApplyDir(s, d)
      else s.(pending := s.pending[p := JoinDelta(s.Pending(p), s.Pending(d))][d := map[]])
    case Publish =>
      ApplyDir(s, ROOT)
    case AddDir(d, p) =>
      s.(parent := s.parent[d := p])
    case Orphan(d) =>
      s.(parent := s.parent - {d})
  }

  // ---------------------------------------------------------------------------------------------
  // Tallies

  ghost function LegWeights(legs: map<LegId, FileId>, f: FileId): map<LegId, int> {
    map x | x in legs :: if legs[x] == f then 1 else 0
  }

  /** The number of legs of f in all directories. */
  ghost function LegCount(s: State, f: FileId): int {
    Sum(LegWeights(s.legs, f))
  }

  ghost function Additions(pending: map<DirId, Delta>, f: FileId): int {
    Sum(AddWeights(pending, f))
  }

  ghost function AddWeights(pending: map<DirId, Delta>, f: FileId): map<DirId, int> {
    map d | d in pending :: TupleOf(pending[d], f).additions
  }

  ghost function Deletions(pending: map<DirId, Delta>, f: FileId): int {
    Sum(DelWeights(pending, f))
  }

  ghost function DelWeights(pending: map<DirId, Delta>, f: FileId): map<DirId, int> {
    map d | d in pending :: TupleOf(pending[d], f).deletions
  }

  /** The books of one file: every entry balances its legs and its pending deltas, and a file
      without an entry has neither. */
  ghost predicate Balanced(s: State, f: FileId) {
    if f in s.table.links then
      var e := s.table.links[f];
      && e.nlink + e.delta == LegCount(s, f) + s.promised[f]
      && e.delta == Additions(s.pending, f) - Deletions(s.pending, f)
      && e.numDeltas == Additions(s.pending, f) + Deletions(s.pending, f)
      && !e.Dead()
    else
      LegCount(s, f) == 0 && s.promised[f] == 0 && Additions(s.pending, f) == 0 && Deletions(s.pending, f) == 0
  }

  ghost predicate Inv(s: State) {
    s.table.InodesMatch() && forall f {:trigger Balanced(s, f)} :: Balanced(s, f)
  }

  lemma LegAdded(legs: map<LegId, FileId>, leg: LegId, g: FileId, f: FileId)
    ensures Sum(LegWeights(legs[leg := g], f))
         == Sum(LegWeights(legs, f)) + (if f == g then 1 else 0)
            - (if leg in legs && legs[leg] == f then 1 else 0)
  {
    SumUpdate(LegWeights(legs, f), leg, if f == g then 1 else 0);
    assert LegWeights(legs[leg := g], f) == LegWeights(legs, f)[leg := if f == g then 1 else 0];
  }

  lemma LegRemoved(legs: map<LegId, FileId>, leg: LegId, f: FileId)
    requires leg in legs
    ensures Sum(LegWeights(legs - {leg}, f)) == Sum(LegWeights(legs, f)) - if legs[leg] == f then 1 else 0
  {
    SumExtract(LegWeights(legs, f), leg);
    assert LegWeights(legs - {leg}, f) == LegWeights(legs, f) - {leg};
  }

  /** Replacing one directory's deltas changes the totals by the difference. */
  lemma PendingReplaced(pending: map<DirId, Delta>, d: DirId, delta: Delta, f: FileId)
    ensures var was := if d in pending then TupleOf(pending[d], f) else Tuple(0, 0);
            && Additions(pending[d := delta], f) == Additions(pending, f) + TupleOf(delta, f).additions - was.additions
            && Deletions(pending[d := delta], f) == Deletions(pending, f) + TupleOf(delta, f).deletions - was.deletions
  {
    hide Sum;
    var t := TupleOf(delta, f);
    WeightsReplaced(pending, d, delta, f);
    SumUpdate(AddWeights(pending, f), d, t.additions);
    SumUpdate(DelWeights(pending, f), d, t.deletions);
  }

  lemma WeightsReplaced(pending: map<DirId, Delta>, d: DirId, delta: Delta, f: FileId)
    ensures AddWeights(pending[d := delta], f) == AddWeights(pending, f)[d := TupleOf(delta, f).additions]
    ensures DelWeights(pending[d := delta], f) == DelWeights(pending, f)[d := TupleOf(delta, f).deletions]
  {
    hide TupleOf;
  }

  lemma TalliesNonNegative(s: State, f: FileId)
    ensures LegCount(s, f) >= 0 && Additions(s.pending, f) >= 0 && Deletions(s.pending, f) >= 0
    ensures forall leg :: leg in s.legs && s.legs[leg] == f ==> LegCount(s, f) >= 1
    ensures forall d :: d in s.pending ==>
              TupleOf(s.pending[d], f).additions <= Additions(s.pending, f) &&
              TupleOf(s.pending[d], f).deletions <= Deletions(s.pending, f)
  {
    SumNonNegative(LegWeights(s.legs, f));
    SumNonNegative(AddWeights(s.pending, f));
    SumNonNegative(DelWeights(s.pending, f));
    forall leg | leg in s.legs && s.legs[leg] == f ensures LegCount(s, f) >= 1 {
      assert LegWeights(s.legs, f)[leg] == 1;
    }
    forall d | d in s.pending
      ensures TupleOf(s.pending[d], f).additions <= Additions(s.pending, f)
      ensures TupleOf(s.pending[d], f).deletions <= Deletions(s.pending, f)
    {
      assert AddWeights(s.pending, f)[d] == TupleOf(s.pending[d], f).additions;
      assert DelWeights(s.pending, f)[d] == TupleOf(s.pending[d], f).deletions;
    }
  }

  // ---------------------------------------------------------------------------------------------
  // Every step keeps the books

  lemma DecBalance(s: State, d: DirId, g: FileId, f: FileId)
    requires g in s.table.links
    ensures var s' := DecIn(s, d, g); var one := if f == g then 1 else 0;
            && Additions(s'.pending, f) == Additions(s.pending, f)
            && Deletions(s'.pending, f) == Deletions(s.pending, f) + one
  {
    PendingReplaced(s.pending, d, DecDelta(s.Pending(d), g), f);
  }

  lemma RemoveLegBalance(s: State, leg: LegId, f: FileId)
    requires leg in s.legs && s.legs[leg] in s.table.links && Balanced(s, f)
    ensures Balanced(RemoveLeg(s, leg), f)
  {
    LegRemoved(s.legs, leg, f);
    DecBalance(s.(legs := s.legs - {leg}), leg.0, s.legs[leg], f);
    TalliesNonNegative(s, f);
  }

  lemma ApplyBalance(s: State, d: DirId, f: FileId)
    requires Balanced(s, f)
    ensures Balanced(ApplyDir(s, d), f)
  {
    PendingReplaced(s.pending, d, map[], f);
    TalliesNonNegative(ApplyDir(s, d), f);
    TalliesNonNegative(s, f);
    if f in s.table.links {
      var e := s.table.links[f];
      assert e.Absorb(Tuple(0, 0)) == e;
    }
  }

  lemma MoveBalance(s: State, from: LegId, to: LegId, f: FileId)
    requires from in s.legs && from != to && to !in s.legs && Balanced(s, f)
    ensures Balanced(s.(legs := (s.legs - {from})[to := s.legs[from]]), f)
  {
    LegRemoved(s.legs, from, f);
    LegAdded(s.legs - {from}, to, s.legs[from], f);
  }

  lemma FlushBalance(s: State, d: DirId, p: DirId, f: FileId)
    requires d != p && Balanced(s, f)
    ensures Balanced(s.(pending := s.pending[p := JoinDelta(s.Pending(p), s.Pending(d))][d := map[]]), f)
  {
    var joined := s.pending[p := JoinDelta(s.Pending(p), s.Pending(d))];
    PendingReplaced(s.pending, p, JoinDelta(s.Pending(p), s.Pending(d)), f);
    PendingReplaced(joined, d, map[], f);
  }

  lemma PromiseBalance(s: State, d: DirId, g: FileId, f: FileId)
    requires g in s.table.links && Balanced(s, f)
    ensures Balanced(IncIn(s, d, g).(promised := s.promised + multiset{g}), f)
  {
    PendingReplaced(s.pending, d, IncDelta(s.Pending(d), g), f);
    TalliesNonNegative(s, f);
  }

  lemma NormalizeBalance(s: State, leg: LegId, f: FileId)
    requires leg in s.legs && s.legs[leg] in s.table.links && Balanced(s, f)
    ensures Balanced(RemoveLeg(s.(table := s.table.Invalidate(s.legs[leg])), leg), f)
  {
    var s' := s.(table := s.table.Invalidate(s.legs[leg]));
    assert Balanced(s', f);
    RemoveLegBalance(s', leg, f);
  }

  lemma RenameBalance(s: State, from: LegId, to: LegId, f: FileId)
    requires Enabled(s, Move(from, to)) && Balanced(s, f)
    ensures Balanced(Do(s, Move(from, to)), f)
  {
    if to in s.legs {
      RemoveLegBalance(s, to, f);
      MoveBalance(RemoveLeg(s, to), from, to, f);
    } else {
      MoveBalance(s, from, to, f);
    }
  }

  lemma NewBalance(s: State, leg: LegId, g: FileId, inode: InodeId, f: FileId)
    requires Enabled(s, NewHardlink(leg, g, inode)) && Balanced(s, f)
    ensures Balanced(s.(table := s.table.New(g, inode), legs := s.legs[leg := g]), f)
  {
    LegAdded(s.legs, leg, g, f);
  }

  lemma PutBalance(s: State, leg: LegId, g: FileId, f: FileId)
    requires Enabled(s, PutLeg(leg, g)) && Balanced(s, f)
    ensures Balanced(s.(legs := s.legs[leg := g], promised := s.promised - multiset{g}), f)
  {
    LegAdded(s.legs, leg, g, f);
  }

  lemma StepBalance(s: State, step: Step, f: FileId)
    requires Enabled(s, step) && Balanced(s, f)
    ensures Balanced(Do(s, step), f)
  {
    hide RemoveLeg, ApplyDir, IncIn, JoinDelta, Table.New, Sum;
    match step
    case NewHardlink(leg, g, inode) =>
      NewBalance(s, leg, g, inode, f);
    case Promise(d, g) =>
      PromiseBalance(s, d, g, f);
    case PutLeg(leg, g) =>
      PutBalance(s, leg, g, f);
    case Unlink(leg) =>
      RemoveLegBalance(s, leg, f);
    case Move(from, to) =>
      RenameBalance(s, from, to, f);
    case Normalize(leg) =>
      NormalizeBalance(s, leg, f);
    case GiveInode(g, inode) =>
    case Flush(d) =>
      if s.parent[d] == ROOT {
        ApplyBalance(s, d, f);
      } else {
        FlushBalance(s, d, s.parent[d], f);
      }
    case Publish =>
      ApplyBalance(s, ROOT, f);
    case AddDir(d, p) =>
    case Orphan(d) =>
  }

  lemma AbsorbKeepsInodes(t: Table, d: Delta)
    requires t.InodesMatch()
    ensures t.Absorb(d).InodesMatch()
  {
    var t' := t.Absorb(d);
    forall i | i in t'.inodes ensures t'.inodes[i] in t'.links && t'.links[t'.inodes[i]].inodeId == i {
      var f := t.inodes[i];
      assert t.links[f].inodeId == i && i !in t.Gone(d);
    }
    forall f | f in t'.links && t'.links[f].inodeId != INODE_ID_INVALID
      ensures t'.links[f].inodeId in t'.inodes
    {
      var i := t.links[f].inodeId;
      assert forall g :: g in t.links && t.links[g].inodeId == i ==> t.inodes[i] == g;
    }
  }

  lemma StepInodes(s: State, step: Step)
    requires Enabled(s, step) && s.table.InodesMatch()
    ensures Do(s, step).table.InodesMatch()
  {
    hide JoinDelta, Table.Absorb, IncDelta, DecDelta, Table.InodesMatch, Table.Set, Table.New, Table.Invalidate,
      Table.GiveInode;
    match step
    case NewHardlink(leg, f, inode) => NewKeepsInodes(s.table, f, inode);
    case Promise(d, f) => SetKeepsInodes(s.table, f, s.table.links[f].Inc());
    case Unlink(leg) => SetKeepsInodes(s.table, s.legs[leg], s.table.links[s.legs[leg]].Dec());
    case Move(from, to) =>
      if to in s.legs {
        SetKeepsInodes(s.table, s.legs[to], s.table.links[s.legs[to]].Dec());
      }
    case Normalize(leg) =>
      var f := s.legs[leg];
      InvalidateKeepsInodes(s.table, f);
      var t := s.table.Invalidate(f);
      SetKeepsInodes(t, f, t.links[f].Dec());
    case GiveInode(f, inode) => GiveKeepsInodes(s.table, f, inode);
    case Flush(d) => AbsorbKeepsInodes(s.table, s.Pending(d));
    case Publish => AbsorbKeepsInodes(s.table, s.Pending(ROOT));
    case PutLeg(_, _) =>
    case AddDir(_, _) =>
    case Orphan(_) =>
  }

  lemma NewKeepsInodes(t: Table, f: FileId, inode: InodeId)
    requires t.InodesMatch() && f !in t.links && inode != INODE_ID_INVALID && inode !in t.inodes
    ensures t.New(f, inode).InodesMatch()
  {
  }

  lemma SetKeepsInodes(t: Table, f: FileId, e: Entry)
    requires t.InodesMatch() && f in t.links && e.inodeId == t.links[f].inodeId
    ensures t.Set(f, e).InodesMatch()
  {
  }

  lemma InvalidateKeepsInodes(t: Table, f: FileId)
    requires t.InodesMatch() && f in t.links
    ensures f in t.Invalidate(f).links && t.Invalidate(f).InodesMatch()
  {
  }

  lemma GiveKeepsInodes(t: Table, f: FileId, inode: InodeId)
    requires t.InodesMatch() && f in t.links && inode != INODE_ID_INVALID && inode !in t.inodes
    ensures t.GiveInode(f, inode).InodesMatch()
  {
  }

  /** One step of the protocol keeps the invariant. */
  lemma StepKeepsInv(s: State, step: Step)
    requires Inv(s) && Enabled(s, step)
    ensures Inv(Do(s, step))
  {
    hide Do, Balanced, Table.InodesMatch;
    StepInodes(s, step);
    forall f {:trigger Balanced(Do(s, step), f)} ensures Balanced(Do(s, step), f) {
      assert Balanced(s, f);
      StepBalance(s, step, f);
    }
  }

  /** Where the legs are after a step: only naming operations put, move and take them. */
  function LegsAfter(legs: map<LegId, FileId>, step: Step): map<LegId, FileId> {
    match step
    case NewHardlink(leg, f, _) => legs[leg := f]
    case PutLeg(leg, f) => legs[leg := f]
    case Unlink(leg) => legs - {leg}
    case Normalize(leg) => legs - {leg}
    case Move(from, to) => if from in legs then (legs - {from})[to := legs[from]] else legs
    case _ => legs
  }

  /** So a renamed leg is found at its new place and not at its old one, in place of what was there; all
      other legs stay, and counts change for the overwritten file alone. */
  lemma LegsFollowSteps(s: State, step: Step, f: FileId)
    requires Enabled(s, step)
    ensures Do(s, step).legs == LegsAfter(s.legs, step)
    ensures step.Move? ==>
      && step.to in Do(s, step).legs && Do(s, step).legs[step.to] == s.legs[step.from]
      && step.from !in Do(s, step).legs
      && LegCount(Do(s, step), f) == LegCount(s, f) - if step.to in s.legs && s.legs[step.to] == f then 1 else 0
  {
    if step.Move? {
      MovedLegs(s, step.from, step.to, f);
    }
    hide LegCount;
  }

  lemma MovedLegs(s: State, from: LegId, to: LegId, f: FileId)
    requires Enabled(s, Move(from, to))
    ensures var t := Do(s, Move(from, to));
      && t.legs == (s.legs - {from})[to := s.legs[from]]
      && LegCount(t, f) == LegCount(s, f) - if to in s.legs && s.legs[to] == f then 1 else 0
  {
    LegRemoved(s.legs, from, f);
    LegAdded(s.legs - {from}, to, s.legs[from], f);
    hide Sum, LegWeights;
    if to in s.legs {
      assert (s.legs - {to} - {from})[to := s.legs[from]] == (s.legs - {from})[to := s.legs[from]];
    }
  }

  /** Over a run. */
  function LegsAfterAll(legs: map<LegId, FileId>, steps: seq<Step>): map<LegId, FileId>
    decreases |steps|
  {
    if steps == [] then legs else LegsAfter(LegsAfterAll(legs, steps[..|steps| - 1]), steps[|steps| - 1])
  }

  // ---------------------------------------------------------------------------------------------
  // Whole runs

  ghost predicate IsRun(run: seq<State>, steps: seq<Step>) {
    && |run| == |steps| + 1
    && forall i :: 0 <= i < |steps| ==> Enabled(run[i], steps[i]) && run[i + 1] == Do(run[i], steps[i])
  }

  /** A workspace as loaded: the table counts the legs, and nothing is pending. */
  ghost predicate Loaded(s: State) {
    && s.pending == map[] && s.promised == multiset{} && s.table.InodesMatch()
    && forall f {:trigger LegCount(s, f)} ::
         if f in s.table.links
         then s.table.links[f].nlink == LegCount(s, f) > 0 && s.table.links[f].delta == s.table.links[f].numDeltas == 0
         else LegCount(s, f) == 0
  }

  lemma LoadedInv(s: State)
    requires Loaded(s)
    ensures Inv(s)
  {
    forall f {:trigger Balanced(s, f)} ensures Balanced(s, f) {
      assert LegCount(s, f) >= 0 by { TalliesNonNegative(s, f); }
      assert AddWeights(s.pending, f) == map[] && DelWeights(s.pending, f) == map[];
    }
  }

  /** Conservation: in every state of every run of the protocol, nlink + delta is the number of legs,
      and delta and numDeltas are the sum and the size of everything pending. */
  lemma {:induction false} Conservation(run: seq<State>, steps: seq<Step>, j: nat)
    requires IsRun(run, steps) && Loaded(run[0]) && j < |run|
    ensures Inv(run[j])
  {
    if j == 0 {
      LoadedInv(run[0]);
    } else {
      Conservation(run, steps, j - 1);
      StepKeepsInv(run[j - 1], steps[j - 1]);
    }
  }

  /** In every state of every run the legs are where the naming operations put them: neither bubbling nor
      publishing nor the life of a directory moves one. */
  lemma {:induction false} LegsAreNamed(run: seq<State>, steps: seq<Step>, j: nat)
    requires IsRun(run, steps) && j < |run|
    ensures run[j].legs == LegsAfterAll(run[0].legs, steps[..j])
  {
    hide Do, Enabled, LegsAfter;
    if j == 0 {
      assert steps[..0] == [];
    } else {
      LegsAreNamed(run, steps, j - 1);
      LegsFollowSteps(run[j - 1], steps[j - 1], 0);
      assert steps[..j][..j - 1] == steps[..j - 1] && steps[..j][j - 1] == steps[j - 1];
    }
  }

  /** The tree of directories changes with them alone. */
  lemma DirectoriesFollowSteps(s: State, step: Step)
    requires Enabled(s, step)
    ensures Do(s, step).parent == match step
      case AddDir(d, p) => s.parent[d := p]
      case Orphan(d) => s.parent - {d}
      case _ => s.parent
    ensures step.AddDir? ==> Enabled(Do(s, step), Flush(step.d))
  {
  }

  /** The delta that a step makes in a directory: where the leg is counted, or was taken from. */
  function Made(s: State, step: Step, d: DirId, f: FileId): Tuple {
    match step
    case Promise(x, g) => if x == d && g == f then Tuple(1, 0) else Tuple(0, 0)
    case Unlink(leg) => Taken(s, leg, d, f)
    case Normalize(leg) => Taken(s, leg, d, f)
    case Move(_, to) => Taken(s, to, d, f)
    case _ => Tuple(0, 0)
  }

  function Taken(s: State, leg: LegId, d: DirId, f: FileId): Tuple {
    if leg in s.legs && s.legs[leg] == f && leg.0 == d then Tuple(0, 1) else Tuple(0, 0)
  }

  function Plus(a: Tuple, b: Tuple): Tuple {
    Tuple(a.additions + b.additions, a.deletions + b.deletions)
  }

  /** What a directory holds after a step: its own deltas and what the step made in it; a flush empties
      the directory, into its parent, or into the table below the root. */
  lemma DeltasFollowSteps(s: State, step: Step, d: DirId, f: FileId)
    requires Enabled(s, step)
    ensures var was, now := TupleOf(s.Pending(d), f), TupleOf(Do(s, step).Pending(d), f);
      now == if (step.Flush? && step.d == d) || (step.Publish? && d == ROOT) then Tuple(0, 0)
             else if step.Flush? && d != ROOT && s.parent[step.d] == d then Plus(was, TupleOf(s.Pending(step.d), f))
             else Plus(was, Made(s, step, d, f))
  {
    hide RemoveLeg, ApplyDir, IncIn, JoinDelta, TupleOf, Plus;
    PlusNothing(TupleOf(s.Pending(d), f));
    match step
    case Promise(x, g) => CountedIn(s, x, g, d, f);
    case Unlink(leg) => TakenFrom(s, leg, d, f);
    case Normalize(leg) => TakenFrom(s.(table := s.table.Invalidate(s.legs[leg])), leg, d, f);
    case Move(from, to) =>
      if to in s.legs {
        TakenFrom(s, to, d, f);
      }
    case Flush(x) => FlushedFrom(s, x, d, f);
    case Publish => AppliedFrom(s, ROOT, d, f);
    case _ =>
  }

  lemma PlusIs(a: Tuple, b: Tuple)
    ensures Plus(a, b) == Tuple(a.additions + b.additions, a.deletions + b.deletions)
  {
  }

  lemma PlusNothing(t: Tuple)
    ensures Plus(t, Tuple(0, 0)) == t
    ensures Plus(t, Tuple(1, 0)) == Tuple(t.additions + 1, t.deletions)
    ensures Plus(t, Tuple(0, 1)) == Tuple(t.additions, t.deletions + 1)
  {
  }

  lemma DecTuple(d: Delta, g: FileId, f: FileId)
    ensures TupleOf(DecDelta(d, g), f) == Plus(TupleOf(d, f), if f == g then Tuple(0, 1) else Tuple(0, 0))
  {
    var t, after := TupleOf(d, g), DecDelta(d, g);
    assert after == d[g := Tuple(t.additions, t.deletions + 1)];
    assert TupleOf(after, f) == if f == g then Tuple(t.additions, t.deletions + 1) else TupleOf(d, f);
    hide DecDelta, TupleOf, Plus;
    PlusNothing(TupleOf(d, f));
  }

  lemma IncTuple(d: Delta, g: FileId, f: FileId)
    ensures TupleOf(IncDelta(d, g), f) == Plus(TupleOf(d, f), if f == g then Tuple(1, 0) else Tuple(0, 0))
  {
    var t, after := TupleOf(d, g), IncDelta(d, g);
    assert after == d[g := Tuple(t.additions + 1, t.deletions)];
    assert TupleOf(after, f) == if f == g then Tuple(t.additions + 1, t.deletions) else TupleOf(d, f);
    hide IncDelta, TupleOf, Plus;
    PlusNothing(TupleOf(d, f));
  }

  lemma JoinTuple(d: Delta, e: Delta, f: FileId)
    ensures TupleOf(JoinDelta(d, e), f) == Plus(TupleOf(d, f), TupleOf(e, f))
  {
    hide Plus;
    PlusIs(TupleOf(d, f), TupleOf(e, f));
  }

  lemma TakenFrom(s: State, leg: LegId, d: DirId, f: FileId)
    requires leg in s.legs && s.legs[leg] in s.table.links
    ensures TupleOf(RemoveLeg(s, leg).Pending(d), f) == Plus(TupleOf(s.Pending(d), f), Taken(s, leg, d, f))
  {
    hide TupleOf, DecDelta, Plus;
    DecTuple(s.Pending(leg.0), s.legs[leg], f);
    PlusNothing(TupleOf(s.Pending(d), f));
  }

  lemma CountedIn(s: State, x: DirId, g: FileId, d: DirId, f: FileId)
    requires g in s.table.links
    ensures TupleOf(IncIn(s, x, g).Pending(d), f)
         == Plus(TupleOf(s.Pending(d), f), if x == d && g == f then Tuple(1, 0) else Tuple(0, 0))
  {
    hide TupleOf, IncDelta, Plus;
    IncTuple(s.Pending(x), g, f);
    PlusNothing(TupleOf(s.Pending(d), f));
  }

  lemma AppliedFrom(s: State, x: DirId, d: DirId, f: FileId)
    ensures TupleOf(ApplyDir(s, x).Pending(d), f) == if d == x then Tuple(0, 0) else TupleOf(s.Pending(d), f)
  {
    hide Table.Absorb;
  }

  lemma FlushedFrom(s: State, x: DirId, d: DirId, f: FileId)
    requires Enabled(s, Flush(x))
    ensures TupleOf(Do(s, Flush(x)).Pending(d), f)
         == if x == d then Tuple(0, 0)
            else if d != ROOT && s.parent[x] == d then Plus(TupleOf(s.Pending(d), f), TupleOf(s.Pending(x), f))
            else TupleOf(s.Pending(d), f)
  {
    var p := s.parent[x];
    assert TupleOf(map[], f) == Tuple(0, 0);
    hide TupleOf, JoinDelta, Plus, ApplyDir;
    if p == ROOT {
      AppliedFrom(s, x, d, f);
    } else {
      JoinTuple(s.Pending(p), s.Pending(x), f);
    }
  }

  /** The deltas of a directory that is not in the tree can only grow. */
  lemma OrphanKeepsDeltas(s: State, step: Step, d: DirId, f: FileId)
    requires Enabled(s, step) && d !in s.parent && d != ROOT && !(step.AddDir? && step.d == d)
    ensures d !in Do(s, step).parent
    ensures var was, now := TupleOf(s.Pending(d), f), TupleOf(Do(s, step).Pending(d), f);
      was.additions <= now.additions && was.deletions <= now.deletions
  {
    DirectoriesFollowSteps(s, step);
    DeltasFollowSteps(s, step, d, f);
    hide Do, Made;
  }

  lemma {:induction false} OrphanHolds(run: seq<State>, steps: seq<Step>, i: nat, j: nat, d: DirId, f: FileId)
    requires IsRun(run, steps) && i <= j < |run| && d !in run[i].parent && d != ROOT
    requires forall t :: i <= t < j ==> !(steps[t].AddDir? && steps[t].d == d)
    ensures d !in run[j].parent
    ensures var was, now := TupleOf(run[i].Pending(d), f), TupleOf(run[j].Pending(d), f);
      was.additions <= now.additions && was.deletions <= now.deletions
    decreases j
  {
    if i < j {
      OrphanHolds(run, steps, i, j - 1, d, f);
      OrphanKeepsDeltas(run[j - 1], steps[j - 1], d, f);
      hide Do, Enabled;
    }
  }

  /** A directory that is removed while it holds a delta of a file pins the entry of that file: it stays
      listed, and cannot be linked anew, for as long as the directory does not come back. */
  lemma OrphanPinsEntry(run: seq<State>, steps: seq<Step>, i: nat, j: nat, d: DirId, f: FileId)
    requires IsRun(run, steps) && Loaded(run[0]) && i < j < |run| && steps[i] == Orphan(d) && d != ROOT
    requires TupleOf(run[i].Pending(d), f) != Tuple(0, 0)
    requires forall t :: i < t < j ==> !(steps[t].AddDir? && steps[t].d == d)
    ensures f in run[j].table.links
  {
    assert run[i + 1] == Do(run[i], steps[i]);
    assert d !in run[i + 1].parent && run[i + 1].Pending(d) == run[i].Pending(d);
    OrphanHolds(run, steps, i + 1, j, d, f);
    assert d in run[j].pending;
    NothingDangles(run, steps, j, f);
  }

  /** A leg that is loaded gives its entry an inode if it has none; a normalized file has none left. */
  lemma InodesFollowSteps(s: State, step: Step)
    requires Inv(s) && Enabled(s, step)
    ensures step.GiveInode? ==> var t, was := Do(s, step).table, s.table.links[step.f].inodeId;
      && step.f in t.links && t.links[step.f].inodeId == (if was != INODE_ID_INVALID then was else step.inode)
      && t.links[step.f].inodeId in t.inodes && t.inodes[t.links[step.f].inodeId] == step.f
    ensures step.NewHardlink? ==> var t := Do(s, step).table; step.inode in t.inodes && t.inodes[step.inode] == step.f
    ensures step.Normalize? ==> var t, f := Do(s, step).table, s.legs[step.leg];
      f in t.links && t.links[f].inodeId == INODE_ID_INVALID && s.table.links[f].inodeId !in t.inodes
  {
  }

  /** A leg finds its entry, and hardlinkDec finds its count exhausted, and panics, exactly if the number
      of legs is a multiple of 2^32: never while it is less. */
  lemma NoOverDecrement(s: State, leg: LegId)
    requires Inv(s) && leg in s.legs
    ensures var f := s.legs[leg]; var n := LegCount(s, f) + s.promised[f];
      && f in s.table.links && n > 0
      && (s.table.links[f].EffectiveNlink() > 0 <==> n % UINT32_RANGE != 0)
  {
    assert Balanced(s, s.legs[leg]);
    TalliesNonNegative(s, s.legs[leg]);
  }

  /** An entry leaves the table only when no leg, no promised leg and no delta of it is left. */
  lemma RemovedOnlyWhenUnused(s: State, step: Step, f: FileId)
    requires Inv(s) && Enabled(s, step) && f in s.table.links && f !in Do(s, step).table.links
    ensures var s' := Do(s, step);
            LegCount(s', f) == 0 && s'.promised[f] == 0 &&
            forall d :: d in s'.pending ==> TupleOf(s'.pending[d], f) == Tuple(0, 0)
    ensures step.Flush? || step.Publish?
  {
    StepKeepsInv(s, step);
    assert Balanced(Do(s, step), f);
    TalliesNonNegative(Do(s, step), f);
  }

  /** The link count users see; none for a file without an entry. */
  function Visible(s: State, f: FileId): int {
    if f in s.table.links then s.table.links[f].nlink + s.table.links[f].delta else 0
  }

  /** Flushing and publishing move deltas without changing what users see. */
  lemma BubblingIsInvisible(s: State, step: Step, f: FileId)
    requires Inv(s) && Enabled(s, step) && (step.Flush? || step.Publish?)
    ensures var s' := Do(s, step);
            && s'.legs == s.legs
            && Visible(s', f) == Visible(s, f)
  {
    hide JoinDelta, Table.Absorb;
    StepKeepsInv(s, step);
    assert Balanced(s, f) && Balanced(Do(s, step), f);
  }

  // ---------------------------------------------------------------------------------------------
  // Quiescence

  /** A leaf-to-root order of directories: every parent comes later, or is the root. */
  ghost predicate LeafToRoot(parent: map<DirId, DirId>, order: seq<DirId>) {
    forall i :: 0 <= i < |order| ==>
      && order[i] in parent && order[i] != ROOT && parent[order[i]] != order[i]
      && (parent[order[i]] == ROOT || parent[order[i]] in order[i + 1..])
  }

  function FlushAll(s: State, order: seq<DirId>): State
    requires forall i :: 0 <= i < |order| ==> order[i] in s.parent && s.parent[order[i]] != order[i]
    decreases |order|
  {
    if order == [] then s else FlushAll(Do(s, Flush(order[0])), order[1..])
  }

  /** Only directories still to be flushed, and the root, hold deltas. */
  predicate Settled(s: State, order: seq<DirId>) {
    forall d :: d in s.pending && d != ROOT && d !in order ==> s.pending[d] == map[]
  }

  lemma {:induction false} FlushAllSettles(s: State, order: seq<DirId>)
    requires Inv(s) && LeafToRoot(s.parent, order) && Settled(s, order)
    ensures var s' := FlushAll(s, order);
            Inv(s') && Settled(s', []) && s'.legs == s.legs && s'.promised == s.promised
    decreases |order|
  {
    if order != [] {
      var s1 := Do(s, Flush(order[0]));
      StepKeepsInv(s, Flush(order[0]));
      forall i | 0 <= i < |order[1..]|
        ensures order[1..][i] in s1.parent && order[1..][i] != ROOT && s1.parent[order[1..][i]] != order[1..][i]
        ensures s1.parent[order[1..][i]] == ROOT || s1.parent[order[1..][i]] in order[1..][i + 1..]
      {
        assert order[1..][i] == order[i + 1] && order[1..][i + 1..] == order[i + 2..];
      }
      forall d | d in s1.pending && d != ROOT && d !in order[1..] ensures s1.pending[d] == map[] {
        assert d in order ==> d == order[0];
      }
      FlushAllSettles(s1, order[1..]);
    }
  }

  /** After all directories have flushed from the leaves to the root and the root has published,
      with no directory removed while holding deltas, nlink is the leg count for every file. */
  lemma Quiescence(s: State, order: seq<DirId>)
    requires Inv(s) && LeafToRoot(s.parent, order) && Settled(s, order) && s.promised == multiset{}
    ensures var s' := Do(FlushAll(s, order), Publish);
            s'.legs == s.legs && forall f {:trigger LegCount(s', f)} ::
              if f in s'.table.links then s'.table.links[f].nlink == LegCount(s', f) > 0 else LegCount(s', f) == 0
  {
    FlushAllSettles(s, order);
    var s1 := FlushAll(s, order);
    var s' := Do(s1, Publish);
    PublishEmpties(s1);
    StepKeepsInv(s1, Publish);
    forall f {:trigger LegCount(s', f)}
      ensures if f in s'.table.links then s'.table.links[f].nlink == LegCount(s', f) > 0 else LegCount(s', f) == 0
    {
      QuiescentCount(s', f);
    }
  }

  lemma PublishEmpties(s: State)
    requires Settled(s, [])
    ensures var s' := Do(s, Publish);
            s'.legs == s.legs && s'.promised == s.promised &&
            forall d :: d in s'.pending ==> s'.pending[d] == map[]
  {
  }

  lemma QuiescentCount(s: State, f: FileId)
    requires Inv(s) && s.promised == multiset{} && forall d :: d in s.pending ==> s.pending[d] == map[]
    ensures if f in s.table.links then s.table.links[f].nlink == LegCount(s, f) > 0 else LegCount(s, f) == 0
  {
    assert Balanced(s, f);
    NothingPending(s.pending, f);
    TalliesNonNegative(s, f);
  }

  lemma NothingPending(pending: map<DirId, Delta>, f: FileId)
    requires forall d :: d in pending ==> pending[d] == map[]
    ensures Additions(pending, f) == 0 && Deletions(pending, f) == 0
  {
    SumZero(AddWeights(pending, f));
    SumZero(DelWeights(pending, f));
  }

  // ---------------------------------------------------------------------------------------------
  // When a file can be linked anew

  /** The file has a leg, a promised leg, or a pending delta in some directory, orphaned or not. */
  ghost predicate Used(s: State, f: FileId) {
    || (exists leg :: leg in s.legs && s.legs[leg] == f)
    || f in s.promised
    || (exists d :: d in s.pending && TupleOf(s.pending[d], f) != Tuple(0, 0))
  }

  /** The table lists exactly the files in use. */
  lemma ListedIffUsed(s: State, f: FileId)
    requires Inv(s)
    ensures f in s.table.links <==> Used(s, f)
  {
    assert Balanced(s, f);
    TalliesNonNegative(s, f);
    if !Used(s, f) {
      forall x | x in LegWeights(s.legs, f) ensures LegWeights(s.legs, f)[x] == 0 {
        assert s.legs[x] != f;
      }
      SumZero(LegWeights(s.legs, f));
      forall d | d in s.pending ensures TupleOf(s.pending[d], f) == Tuple(0, 0) {
      }
      SumZero(AddWeights(s.pending, f));
      SumZero(DelWeights(s.pending, f));
    }
  }

  /** In every state of every run each leg, each promised leg and each pending delta finds its entry: a
      leg never dangles, and apply never drops a delta. */
  lemma NothingDangles(run: seq<State>, steps: seq<Step>, j: nat, f: FileId)
    requires IsRun(run, steps) && Loaded(run[0]) && j < |run| && Used(run[j], f)
    ensures f in run[j].table.links
  {
    Conservation(run, steps, j);
    ListedIffUsed(run[j], f);
  }

  /** newHardlink's assertion holds in a state of a run if and only if the file has no leg, no promised
      leg and no delta anywhere. */
  lemma NewHardlinkIffUnused(s: State, leg: LegId, f: FileId, inode: InodeId)
    requires Inv(s)
    ensures Enabled(s, NewHardlink(leg, f, inode))
       <==> leg !in s.legs && inode != INODE_ID_INVALID && inode !in s.table.inodes && !Used(s, f)
  {
    ListedIffUsed(s, f);
  }

  /** So a file that was normalized cannot be linked again while its last delta is on its way. */
  lemma RelinkMustWait(s: State, leg: LegId, again: LegId, inode: InodeId)
    requires Inv(s) && Enabled(s, Normalize(leg))
    ensures var s' := Do(s, Normalize(leg));
            LegCount(s', s.legs[leg]) == LegCount(s, s.legs[leg]) - 1 && Used(s', s.legs[leg]) &&
            !Enabled(s', NewHardlink(again, s.legs[leg], inode))
  {
    LegRemoved(s.legs, leg, s.legs[leg]);
    StepKeepsInv(s, Normalize(leg));
    ListedIffUsed(Do(s, Normalize(leg)), s.legs[leg]);
  }

  /** And it can once every directory has flushed and the root has published. */
  lemma RelinkAfterPublish(s: State, order: seq<DirId>, again: LegId, f: FileId, inode: InodeId)
    requires Inv(s) && LeafToRoot(s.parent, order) && Settled(s, order) && s.promised == multiset{}
    requires again !in s.legs && inode != INODE_ID_INVALID
    ensures var s' := Do(FlushAll(s, order), Publish);
            inode !in s'.table.inodes ==>
              (Enabled(s', NewHardlink(again, f, inode)) <==> forall leg :: leg in s.legs ==> s.legs[leg] != f)
  {
    var s1 := FlushAll(s, order);
    var s' := Do(s1, Publish);
    hide Inv, LeafToRoot, Settled, FlushAll, Do;
    FlushAllSettles(s, order);
    PublishEmpties(s1);
    StepKeepsInv(s1, Publish);
    NewHardlinkIffUnused(s', again, f, inode);
    UsedWhenIdle(s', f);
    hide Enabled, Used;
  }

  /** Without deltas and promises only legs use a file. */
  lemma UsedWhenIdle(s: State, f: FileId)
    requires s.promised == multiset{} && forall d :: d in s.pending ==> s.pending[d] == map[]
    ensures Used(s, f) <==> exists leg :: leg in s.legs && s.legs[leg] == f
  {
  }
}
