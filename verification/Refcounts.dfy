/** Inode reference counts (daemon/inode.go, daemon/mux.go): who holds a reference, and why no inode
    goes away while somebody does. */
module Refcounts {
  import opened Basics

  /** The maps of the mux, and the holders of references.
      parent   the instantiated inodes and their parents; an orphan is its own parent
      waiting  parentOfUninstantiated
      handles, queued, temps  one reference each: open file handles, dirty queue elements, and
               references that running code has to give back */
  datatype State = State(
    parent: map<InodeId, InodeId>,
    refs: map<InodeId, int>,
    lookups: map<InodeId, nat>,
    waiting: map<InodeId, InodeId>,
    handles: multiset<InodeId>,
    queued: multiset<InodeId>,
    temps: multiset<InodeId>)

  function Kids(parent: map<InodeId, InodeId>, i: InodeId): set<InodeId> {
    set c | c in parent && parent[c] == i && c != i
  }

  /** Handles, queue elements and temporary references. */
  function Held(s: State, i: InodeId): nat {
    s.handles[i] + s.queued[i] + s.temps[i]
  }

  function Known(s: State, i: InodeId): nat {
    if i in s.lookups then 1 else 0
  }

  function Holders(s: State, i: InodeId): nat {
    Known(s, i) + Held(s, i) + |Kids(s.parent, i)|
  }

  predicate Counted(s: State, i: InodeId) {
    i in s.refs && s.refs[i] >= 1 && s.refs[i] >= Holders(s, i)
  }

  predicate Permanent(i: InodeId) {
    i <= RESERVED_END
  }

  /** Every reference that is held is counted. */
  ghost predicate AllCounted(s: State) {
    forall i :: i in s.parent && !Permanent(i) ==> Counted(s, i)
  }

  /** Parents are instantiated, and so are the permanent inodes. */
  ghost predicate ParentsLive(s: State) {
    && (forall i :: 0 < i && Permanent(i) ==> i in s.parent && s.parent[i] == i)
    && (forall i :: LiveParent(s.parent, i))
  }

  predicate LiveParent(parent: map<InodeId, InodeId>, i: InodeId) {
    i in parent ==> parent[i] in parent
  }

  /** Whatever is open, queued or in use is instantiated. */
  ghost predicate HeldLive(s: State) {
    forall i :: Held(s, i) > 0 ==> i in s.parent
  }

  /** The parents of uninstantiated inodes are instantiated, but for what is left of an orphan. */
  ghost predicate WaitingLive(s: State) {
    forall i :: i in s.waiting && s.waiting[i] != i ==> s.waiting[i] in s.parent
  }

  predicate RefsPositive(s: State) {
    forall i :: i in s.refs ==> s.refs[i] >= 1
  }

  ghost predicate Inv(s: State) {
    RefsPositive(s) && AllCounted(s) && ParentsLive(s) && HeldLive(s) && WaitingLive(s)
  }

  // ---------------------------------------------------------------------------------------------
  // References

  /** What becomes of the map of uninstantiated inodes when i goes: i waits at its parent, and its own
      children wait no longer. */
  function Uninstantiated(s: State, i: InodeId): map<InodeId, InodeId>
    requires i in s.parent
  {
    WithoutChildren(s.waiting[i := s.parent[i]], i)
  }

  function WithoutChildren(waiting: map<InodeId, InodeId>, i: InodeId): map<InodeId, InodeId> {
    map c | c in waiting && (c == i || waiting[c] != i) :: waiting[c]
  }

  /** delRef: gives back a reference; the last one uninstantiates the inode, and with it goes a
      reference to the parent. */
  function DelRef(s: State, i: InodeId): State
    decreases |s.parent.Keys|
  {
    if !RunsOut(s, i) then Drop(s, i)
    else if s.parent[i] == i then Gone(s, i)
    else
      GoneIsFewer(s, i);
      DelRef(Gone(s, i), s.parent[i])
  }

  /** The inode has one reference left. */
  predicate RunsOut(s: State, i: InodeId) {
    !Permanent(i) && i in s.parent && i in s.refs && s.refs[i] == 1
  }

  lemma GoneIsFewer(s: State, i: InodeId)
    requires i in s.parent
    ensures |Gone(s, i).parent.Keys| < |s.parent.Keys|
  {
    assert s.parent.Keys == Gone(s, i).parent.Keys + {i};
  }

  /** The inode is uninstantiated; its reference to the parent is to be given back. */
  function Gone(s: State, i: InodeId): State
    requires i in s.parent
  {
    var temps := s.temps - multiset{i};
    s.(parent := s.parent - {i}, refs := s.refs - {i}, waiting := Uninstantiated(s, i),
       temps := if s.parent[i] == i then temps else temps + multiset{s.parent[i]})
  }

  lemma DelRefCases(s: State, i: InodeId)
    ensures !RunsOut(s, i) ==> DelRef(s, i) == Drop(s, i)
    ensures RunsOut(s, i) ==> DelRef(s, i) == if s.parent[i] == i then Gone(s, i) else DelRef(Gone(s, i), s.parent[i])
  {
  }

  lemma KidsWithout(parent: map<InodeId, InodeId>, i: InodeId, j: InodeId)
    ensures Kids(parent - {i}, j) == Kids(parent, j) - {i}
    ensures |Kids(parent - {i}, j)| == |Kids(parent, j)| - if i in Kids(parent, j) then 1 else 0
  {
    assert Kids(parent - {i}, j) == Kids(parent, j) - {i};
  }

  lemma KidsWith(parent: map<InodeId, InodeId>, i: InodeId, p: InodeId, j: InodeId)
    ensures |Kids(parent[i := p], j)|
         == |Kids(parent, j)| - (if i in Kids(parent, j) then 1 else 0) + (if p == j && i != j then 1 else 0)
  {
    var before, after := Kids(parent, j), Kids(parent[i := p], j);
    if p == j && i != j {
      assert after == before + {i};
    } else {
      assert after == before - {i};
    }
  }

  /** The last reference to an inode is only given back when nothing holds it. */
  lemma LastReference(s: State, i: InodeId)
    requires Inv(s) && i in s.temps && RunsOut(s, i)
    ensures i !in s.lookups && Held(s, i) == 1
    ensures Kids(s.parent, i) == {}
  {
    assert Held(s, i) > 0;
    assert Counted(s, i);
  }

  lemma GoneCounted(s: State, i: InodeId)
    requires AllCounted(s) && i in s.temps && i in s.parent
    ensures AllCounted(Gone(s, i))
  {
    var t := Gone(s, i);
    forall j | j in t.parent && !Permanent(j) ensures Counted(t, j) {
      assert Counted(s, j);
      KidsWithout(s.parent, i, j);
    }
  }

  lemma GoneKeepsInv(s: State, i: InodeId)
    requires Inv(s) && i in s.temps && RunsOut(s, i)
    ensures Inv(Gone(s, i)) && (s.parent[i] != i ==> s.parent[i] in Gone(s, i).temps)
  {
    LastReference(s, i);
    GoneCounted(s, i);
    GoneParents(s, i);
    GoneHeld(s, i);
    GoneWaiting(s, i);
    assert LiveParent(s.parent, i);
    hide AllCounted, ParentsLive, HeldLive, WaitingLive;
  }

  lemma GoneParents(s: State, i: InodeId)
    requires ParentsLive(s) && i in s.parent && !Permanent(i) && Kids(s.parent, i) == {}
    ensures ParentsLive(Gone(s, i))
  {
    var t := Gone(s, i);
    forall j ensures LiveParent(t.parent, j) {
      assert LiveParent(s.parent, j);
      assert j !in Kids(s.parent, i);
    }
  }

  lemma GoneHeld(s: State, i: InodeId)
    requires ParentsLive(s) && HeldLive(s) && i in s.parent
    requires Held(s, i) == 1 && i in s.temps
    ensures HeldLive(Gone(s, i))
  {
    assert LiveParent(s.parent, i);
    var t := Gone(s, i);
    forall j | Held(t, j) > 0 ensures j in t.parent {
      if j != s.parent[i] {
        assert Held(t, j) <= Held(s, j);
      }
    }
  }

  lemma GoneWaiting(s: State, i: InodeId)
    requires ParentsLive(s) && WaitingLive(s) && i in s.parent
    ensures WaitingLive(Gone(s, i))
  {
    assert LiveParent(s.parent, i);
  }

  function Drop(s: State, i: InodeId): State {
    s.(temps := s.temps - multiset{i},
       refs := if Permanent(i) || i !in s.refs then s.refs else s.refs[i := s.refs[i] - 1])
  }

  lemma DropCounted(s: State, i: InodeId)
    requires AllCounted(s) && i in s.temps && (Permanent(i) || (i in s.refs && s.refs[i] != 1))
    ensures AllCounted(Drop(s, i))
  {
    var t := Drop(s, i);
    forall j | j in t.parent && !Permanent(j) ensures Counted(t, j) {
      assert Counted(s, j);
    }
  }

  lemma DropHeld(s: State, i: InodeId)
    requires HeldLive(s)
    ensures HeldLive(Drop(s, i))
  {
    var t := Drop(s, i);
    forall j | Held(t, j) > 0 ensures j in t.parent {
      assert Held(t, j) <= Held(s, j);
    }
  }

  lemma DropOthers(s: State, i: InodeId)
    requires ParentsLive(s) && WaitingLive(s)
    ensures ParentsLive(Drop(s, i)) && WaitingLive(Drop(s, i))
  {
  }

  lemma HeldIsLive(s: State, i: InodeId)
    requires Inv(s) && i in s.temps
    ensures i in s.parent && (!Permanent(i) ==> Counted(s, i))
  {
  }

  /** A reference that is given back leaves every other one counted, however far the chain of
      parents goes. */
  lemma {:induction false} DelRefKeepsInv(s: State, i: InodeId)
    requires Inv(s) && i in s.temps
    ensures Inv(DelRef(s, i))
    decreases |s.parent.Keys|
  {
    HeldIsLive(s, i);
    hide AllCounted, ParentsLive, HeldLive, WaitingLive, Gone, Drop;
    if Permanent(i) || s.refs[i] != 1 {
      DropCounted(s, i);
      DropHeld(s, i);
      DropOthers(s, i);
    } else {
      GoneKeepsInv(s, i);
      if s.parent[i] != i {
        GoneIsFewer(s, i);
        DelRefKeepsInv(Gone(s, i), s.parent[i]);
      }
    }
  }

  // ---------------------------------------------------------------------------------------------
  // Steps

  datatype Step =
    | Acquire(i: InodeId)
    | Instantiate(i: InodeId, loaded: map<InodeId, InodeId>)
    | NotFound(i: InodeId)
    | GiveBack(i: InodeId)
    | Lookup(i: InodeId)
    | Forget(i: InodeId, n: nat)
    | Open(i: InodeId)
    | Close(i: InodeId)
    | Queue(i: InodeId)
    | Dequeue(i: InodeId)
    | DropElement(i: InodeId)
    | SetParent(i: InodeId, p: InodeId)
    | Orphan(i: InodeId)
    | Create(i: InodeId, p: InodeId)
    | AddUninstantiated(i: InodeId, p: InodeId)
    | RemoveUninstantiated(i: InodeId)

  function AddInodeRef(s: State, i: InodeId): State {
    s.(refs := s.refs[i := (if i in s.refs then s.refs[i] else 0) + 1])
  }

  /** addRef_: permanent inodes are not counted. */
  function AddRef(s: State, i: InodeId): State {
    if Permanent(i) then s else AddInodeRef(s, i)
  }

  function WithTemp(s: State, i: InodeId): State {
    s.(temps := s.temps + multiset{i})
  }

  /** incrementLookupCount_: the first lookup holds a reference. */
  function IncrementLookup(s: State, i: InodeId): State {
    if i in s.lookups then s.(lookups := s.lookups[i := s.lookups[i] + 1])
    else
      var t := s.(lookups := s.lookups[i := 1]);
      if i in s.parent then AddRef(t, i) else t
  }

  /** A subtraction of unsigned numbers of 64 bits. */
  function Minus64(a: nat, b: nat): nat {
    if b <= a then a - b else (a - b) % UINT64_RANGE
  }

  /** shouldForget: the last lookup gives its reference back; so does a forget without any lookup. */
  function ForgetLookups(s: State, i: InodeId, n: nat): State {
    if i == INODE_ID_ROOT || i == INODE_ID_API then s
    else if i in s.lookups && n != s.lookups[i] then
      s.(lookups := s.lookups[i := Minus64(s.lookups[i], n)])
    else
      var t := s.(lookups := s.lookups - {i});
      if i in s.parent then DelRef(WithTemp(t, i), i) else t
  }

  /** A new inode under p: p gets a reference, the inode n of them; all that the lookups do not
      account for are to be given back. */
  function Born(s: State, i: InodeId, p: InodeId, n: nat): State {
    var t := AddRef(s, p);
    var before := if i in t.refs then t.refs[i] else 0;
    t.(parent := t.parent[i := p], refs := t.refs[i := before + n],
       temps := if i in s.lookups then s.temps + multiset{i} else s.temps + multiset{}[i := n])
  }

  /** A child moves to a new parent, which has a reference for it; the one that the old parent had is
      to be given back. */
  function Moved(s: State, i: InodeId, p: InodeId): State
    requires i in s.parent
  {
    var t := if p == i then s else AddRef(s, p);
    WithTemp(t.(parent := s.parent[i := p]), s.parent[i])
  }

  /** setParent_ of an inode that has a parent. */
  function Reparent(s: State, i: InodeId, p: InodeId): State
    requires i in s.parent
  {
    DelRef(Moved(s, i, p), s.parent[i])
  }

  /** orphan_: nothing to do for an orphan. */
  function MakeOrphan(s: State, i: InodeId): State
    requires i in s.parent
  {
    if s.parent[i] == i then s else Reparent(s, i, i)
  }

  predicate Enabled(s: State, step: Step) {
    match step
    case Acquire(i) => i in s.parent
    case Instantiate(i, loaded) =>
      && !Permanent(i) && i !in s.parent && i in s.waiting && s.waiting[i] in s.parent
      && (forall c :: c in loaded ==> loaded[c] == i || loaded[c] in s.parent)
    case NotFound(i) => i !in s.parent && i !in s.waiting
    case GiveBack(i) => i in s.temps
    case Lookup(i) => true
    case Forget(i, n) => i in s.lookups && n <= s.lookups[i]
    case Open(i) => i in s.parent
    case Close(i) => i in s.handles
    case Queue(i) => i in s.parent
    case Dequeue(i) => i in s.queued
    case DropElement(i) => i in s.queued
    case SetParent(i, p) => !Permanent(i) && i in s.parent && s.parent[i] != i && p in s.parent && p != i
    case Orphan(i) => !Permanent(i) && i in s.parent
    case Create(i, p) => !Permanent(i) && i !in s.parent && i !in s.lookups && p in s.parent
    case AddUninstantiated(i, p) => p in s.parent
    case RemoveUninstantiated(i) => true
  }

  function Do(s: State, step: Step): State
    requires Enabled(s, step)
  {
    match step
    case Acquire(i) => WithTemp(AddInodeRef(s, i), i)
    case Instantiate(i, loaded) =>
      var t := Born(s, i, s.waiting[i], 2).(waiting := s.waiting - {i});
      var u := if i in s.lookups then t else DelRef(t, i);
      u.(waiting := u.waiting + loaded)
    case NotFound(i) => AddInodeRef(s, i)
    case GiveBack(i) => DelRef(s, i)
    case Lookup(i) => IncrementLookup(s, i)
    case Forget(i, n) => ForgetLookups(s, i, n)
    case Open(i) => AddInodeRef(s, i).(handles := s.handles + multiset{i})
    case Close(i) => DelRef(WithTemp(s.(handles := s.handles - multiset{i}), i), i)
    case Queue(i) => AddRef(s, i).(queued := s.queued + multiset{i})
    case Dequeue(i) => DelRef(WithTemp(s.(queued := s.queued - multiset{i}), i), i)
    // A failed flush of an inode that became dirty again: the reference stays behind.
    case DropElement(i) => s.(queued := s.queued - multiset{i})
    case SetParent(i, p) => Reparent(s, i, p)
    case Orphan(i) => MakeOrphan(s, i)
    case Create(i, p) => DelRef(IncrementLookup(Born(s, i, p, 1), i), i)
    case AddUninstantiated(i, p) => s.(waiting := s.waiting[i := p])
    case RemoveUninstantiated(i) => s.(waiting := s.waiting - {i})
  }

  /** At most k more holders of an instantiated inode, and as many references. */
  ghost predicate More(s: State, t: State, i: InodeId, k: nat) {
    && t.parent == s.parent && t.waiting == s.waiting && i in s.parent
    && (forall j :: j in t.refs ==> t.refs[j] >= 1)
    && (forall j :: j in s.refs ==> j in t.refs && t.refs[j] >= s.refs[j] + if i == j && !Permanent(i) then k else 0)
    && (forall j :: Known(t, j) + Held(t, j) <= Known(s, j) + Held(s, j) + if i == j then k else 0)
    && (forall j :: j != i ==> Held(t, j) <= Held(s, j))
  }

  lemma MoreCounted(s: State, t: State, i: InodeId, k: nat)
    requires AllCounted(s) && More(s, t, i, k)
    ensures AllCounted(t)
  {
    forall j | j in t.parent && !Permanent(j) ensures Counted(t, j) {
      assert Counted(s, j);
    }
  }

  lemma MoreKeepsInv(s: State, t: State, i: InodeId, k: nat)
    requires Inv(s) && More(s, t, i, k)
    ensures Inv(t)
  {
    MoreCounted(s, t, i, k);
    hide AllCounted, Holders;
  }

  /** One more handle, queue element or temporary reference. */
  lemma HoldKeepsInv(s: State, t: State, i: InodeId)
    requires Inv(s) && i in s.parent
    requires t == AddInodeRef(s, i).(handles := t.handles, queued := t.queued, temps := t.temps)
          || (Permanent(i) && t == s.(handles := t.handles, queued := t.queued, temps := t.temps))
    requires forall j :: Held(t, j) == Held(s, j) + if i == j then 1 else 0
    ensures Inv(t)
  {
    hide AllCounted, ParentsLive, HeldLive, WaitingLive, Held;
    assert More(s, t, i, 1);
    MoreKeepsInv(s, t, i, 1);
  }

  /** A handle or queue element goes, or turns into a reference to give back. */
  lemma SwapKeepsInv(s: State, t: State, i: InodeId)
    requires Inv(s) && i in s.parent
    requires t == s.(handles := t.handles, queued := t.queued, temps := t.temps)
    requires forall j :: Held(t, j) <= Held(s, j)
    ensures Inv(t)
  {
    hide AllCounted, ParentsLive, HeldLive, WaitingLive, Held;
    assert More(s, t, i, 0);
    MoreKeepsInv(s, t, i, 0);
  }

  /** Lookups of an uninstantiated inode hold nothing. */
  lemma UnknownKeepsInv(s: State, t: State, i: InodeId)
    requires Inv(s) && i !in s.parent
    requires t == s.(lookups := t.lookups) && forall j :: j != i ==> (j in t.lookups <==> j in s.lookups)
    ensures Inv(t)
  {
    forall j | j in t.parent && !Permanent(j) ensures Counted(t, j) {
      assert Counted(s, j);
      assert Held(t, j) == Held(s, j) && Known(t, j) == Known(s, j);
    }
    hide AllCounted;
    assert forall j :: Held(t, j) == Held(s, j);
  }

  lemma LookupKeepsInv(s: State, i: InodeId)
    requires Inv(s)
    ensures Inv(IncrementLookup(s, i))
  {
    var t := IncrementLookup(s, i);
    hide AllCounted, ParentsLive, HeldLive, WaitingLive;
    if i in s.parent {
      assert forall j :: Held(t, j) == Held(s, j);
      hide Held;
      assert More(s, t, i, if i in s.lookups then 0 else 1);
      MoreKeepsInv(s, t, i, if i in s.lookups then 0 else 1);
    } else {
      UnknownKeepsInv(s, t, i);
    }
  }

  lemma ForgetKeepsInv(s: State, i: InodeId, n: nat)
    requires Inv(s) && i in s.lookups
    ensures Inv(ForgetLookups(s, i, n))
  {
    if i != INODE_ID_ROOT && i != INODE_ID_API {
      if i !in s.parent {
        UnknownKeepsInv(s, ForgetLookups(s, i, n), i);
      } else if n != s.lookups[i] {
        FewerLookups(s, ForgetLookups(s, i, n), i);
      } else {
        var t := WithTemp(s.(lookups := s.lookups - {i}), i);
        FewerLookups(s, t, i);
        DelRefKeepsInv(t, i);
      }
    }
  }

  /** Lookups go down, or their reference is to be given back. */
  lemma FewerLookups(s: State, t: State, i: InodeId)
    requires Inv(s) && i in s.lookups && i in s.parent
    requires (t.lookups.Keys == s.lookups.Keys && t == s.(lookups := t.lookups))
          || t == WithTemp(s.(lookups := s.lookups - {i}), i)
    ensures Inv(t)
  {
    hide AllCounted, ParentsLive, HeldLive, WaitingLive;
    assert forall j :: Held(t, j) == Held(s, j) + if i == j && t.lookups.Keys != s.lookups.Keys then 1 else 0;
    hide Held;
    assert More(s, t, i, 0);
    MoreKeepsInv(s, t, i, 0);
  }

  lemma MovedCounted(s: State, i: InodeId, p: InodeId)
    requires AllCounted(s) && i in s.parent && s.parent[i] != i && p in s.parent
    ensures AllCounted(Moved(s, i, p))
  {
    var t := Moved(s, i, p);
    forall j | j in t.parent && !Permanent(j) ensures Counted(t, j) {
      assert Counted(s, j);
      KidsWith(s.parent, i, p, j);
      assert Known(t, j) == Known(s, j) && Held(t, j) == Held(s, j) + if j == s.parent[i] then 1 else 0;
      hide Kids, Held;
    }
  }

  lemma MovedKeepsInv(s: State, i: InodeId, p: InodeId)
    requires Inv(s) && !Permanent(i) && i in s.parent && s.parent[i] != i && p in s.parent
    ensures Inv(Moved(s, i, p))
  {
    MovedCounted(s, i, p);
    MovedParents(s, i, p);
    hide AllCounted, ParentsLive, WaitingLive;
    var t := Moved(s, i, p);
    assert forall j :: Held(t, j) == Held(s, j) + if j == s.parent[i] then 1 else 0;
    hide Held;
  }

  lemma MovedParents(s: State, i: InodeId, p: InodeId)
    requires ParentsLive(s) && WaitingLive(s) && !Permanent(i) && i in s.parent && p in s.parent
    ensures ParentsLive(Moved(s, i, p)) && WaitingLive(Moved(s, i, p)) && LiveParent(s.parent, i)
  {
    var t := Moved(s, i, p);
    forall j ensures LiveParent(t.parent, j) {
      assert LiveParent(s.parent, j);
    }
  }

  lemma BornCounted(s: State, i: InodeId, p: InodeId, n: nat)
    requires Inv(s) && !Permanent(i) && i !in s.parent && p in s.parent
    requires n >= if i in s.lookups then 2 else 1
    ensures AllCounted(Born(s, i, p, n))
  {
    var t := Born(s, i, p, n);
    NoKids(s, i);
    assert Held(s, i) == 0;
    assert forall j :: j in s.parent && !Permanent(j) ==> Counted(s, j);
    hide Inv, Kids, AllCounted;
    forall j | j in t.parent && !Permanent(j) ensures Counted(t, j) {
      BornAt(s, i, p, n, j);
    }
    assert forall j :: j in t.parent && !Permanent(j) ==> Counted(t, j);
    AllCountedIs(t);
  }

  lemma AllCountedIs(s: State)
    requires forall j :: j in s.parent && !Permanent(j) ==> Counted(s, j)
    ensures AllCounted(s)
  {
  }

  /** Nobody has an uninstantiated inode as parent. */
  lemma NoKids(s: State, i: InodeId)
    requires Inv(s) && i !in s.parent
    ensures Kids(s.parent, i) == {}
  {
    forall c | c in s.parent ensures s.parent[c] != i {
      assert LiveParent(s.parent, c);
    }
  }

  lemma BornAt(s: State, i: InodeId, p: InodeId, n: nat, j: InodeId)
    requires !Permanent(i) && i !in s.parent && p in s.parent && RefsPositive(s)
    requires n >= if i in s.lookups then 2 else 1
    requires Held(s, i) == 0 && Kids(s.parent, i) == {} && (j in s.parent && !Permanent(j) ==> Counted(s, j))
    requires j in s.parent[i := p] && !Permanent(j)
    ensures Counted(Born(s, i, p, n), j)
  {
    var t := Born(s, i, p, n);
    KidsWith(s.parent, i, p, j);
    hide Kids;
    if j != i {
      assert Known(t, j) == Known(s, j) && Held(t, j) == Held(s, j);
    }
  }

  lemma BornKeepsInv(s: State, i: InodeId, p: InodeId, n: nat)
    requires Inv(s) && !Permanent(i) && i !in s.parent && p in s.parent
    requires n >= if i in s.lookups then 2 else 1
    ensures Inv(Born(s, i, p, n)) && i in Born(s, i, p, n).temps
  {
    hide AllCounted, ParentsLive, HeldLive;
    BornCounted(s, i, p, n);
    BornParents(s, i, p, n);
    BornHeld(s, i, p, n);
  }

  lemma BornHeld(s: State, i: InodeId, p: InodeId, n: nat)
    requires HeldLive(s) && n > 0
    ensures HeldLive(Born(s, i, p, n)) && i in Born(s, i, p, n).temps
  {
    var t := Born(s, i, p, n);
    forall j | j != i ensures Held(t, j) == Held(s, j) {
    }
  }

  lemma BornParents(s: State, i: InodeId, p: InodeId, n: nat)
    requires ParentsLive(s) && !Permanent(i) && i !in s.parent && p in s.parent
    ensures ParentsLive(Born(s, i, p, n))
  {
    var t := Born(s, i, p, n);
    forall j ensures LiveParent(t.parent, j) {
      assert LiveParent(s.parent, j);
    }
  }

  /** Instantiation: two references, one of which is given back again if there is no lookup. */
  lemma InstantiateKeepsInv(s: State, i: InodeId, loaded: map<InodeId, InodeId>)
    requires Inv(s) && Enabled(s, Instantiate(i, loaded))
    ensures Inv(Do(s, Instantiate(i, loaded)))
  {
    var b := Born(s, i, s.waiting[i], 2);
    BornKeepsInv(s, i, s.waiting[i], 2);
    var t := b.(waiting := s.waiting - {i});
    WaitingKeepsInv(b, t);
    if i !in s.lookups {
      DelRefKeepsInv(t, i);
    }
    var u := if i in s.lookups then t else DelRef(t, i);
    assert t.refs[i] >= 2 by {
      assert RefsPositive(s);
    }
    assert u.parent == t.parent && u.waiting == t.waiting;
    WaitingKeepsInv(u, u.(waiting := u.waiting + loaded));
  }

  lemma WaitingKeepsInv(s: State, t: State)
    requires Inv(s) && t == s.(waiting := t.waiting)
    requires forall c :: c in t.waiting && t.waiting[c] != c ==> t.waiting[c] in s.parent
    ensures Inv(t)
  {
    forall j | j in t.parent && !Permanent(j) ensures Counted(t, j) {
      assert Counted(s, j);
      assert Held(t, j) == Held(s, j);
    }
    hide AllCounted;
    assert forall j :: Held(t, j) == Held(s, j);
  }

  lemma NotFoundKeepsInv(s: State, i: InodeId)
    requires Inv(s) && i !in s.parent
    ensures Inv(AddInodeRef(s, i))
  {
    var t := AddInodeRef(s, i);
    forall j | j in t.parent && !Permanent(j) ensures Counted(t, j) {
      assert Counted(s, j);
      assert Held(t, j) == Held(s, j);
    }
    hide AllCounted;
    assert forall j :: Held(t, j) == Held(s, j);
  }

  /** A handle or a queue element is given back. */
  lemma UnholdKeepsInv(s: State, u: State, i: InodeId)
    requires Inv(s) && Held(s, i) > 0 && u == s.(handles := u.handles, queued := u.queued, temps := u.temps)
    requires forall j :: Held(u, j) <= Held(s, j)
    ensures Inv(u) && (i in u.temps ==> Inv(DelRef(u, i)))
  {
    assert i in s.parent;
    SwapKeepsInv(s, u, i);
    if i in u.temps {
      DelRefKeepsInv(u, i);
    }
  }

  lemma MoveKeepsInv(s: State, i: InodeId, p: InodeId)
    requires Inv(s) && !Permanent(i) && i in s.parent && s.parent[i] != i && p in s.parent
    ensures Inv(Reparent(s, i, p))
  {
    MovedKeepsInv(s, i, p);
    MovedOwes(s, i, p);
    DelRefKeepsInv(Moved(s, i, p), s.parent[i]);
  }

  lemma CreateKeepsInv(s: State, i: InodeId, p: InodeId)
    requires Inv(s) && Enabled(s, Create(i, p))
    ensures Inv(Do(s, Create(i, p)))
  {
    var t := Born(s, i, p, 1);
    BornKeepsInv(s, i, p, 1);
    LookupKeepsInv(t, i);
    DelRefKeepsInv(IncrementLookup(t, i), i);
  }

  lemma HoldStepsKeepInv(s: State, step: Step)
    requires Inv(s) && Enabled(s, step) && (step.Acquire? || step.Open? || step.Queue?)
    ensures Inv(Do(s, step))
  {
    hide Inv;
    HoldKeepsInv(s, Do(s, step), step.i);
  }

  lemma UnholdStepsKeepInv(s: State, step: Step)
    requires Inv(s) && Enabled(s, step) && (step.Close? || step.Dequeue? || step.DropElement?)
    ensures Inv(Do(s, step))
  {
    hide Inv, DelRef;
    var u := if step.Close? then s.(handles := s.handles - multiset{step.i})
             else s.(queued := s.queued - multiset{step.i});
    UnholdKeepsInv(s, if step.DropElement? then u else WithTemp(u, step.i), step.i);
  }

  /** Every step keeps all references counted. */
  lemma StepKeepsInv(s: State, step: Step)
    requires Inv(s) && Enabled(s, step)
    ensures Inv(Do(s, step))
  {
    hide Inv, Born, DelRef, Moved, IncrementLookup, ForgetLookups, WithTemp, AddRef, AddInodeRef;
    match step
    case Acquire(_) => HoldStepsKeepInv(s, step);
    case Instantiate(i, loaded) => InstantiateKeepsInv(s, i, loaded);
    case NotFound(i) => NotFoundKeepsInv(s, i);
    case GiveBack(i) => DelRefKeepsInv(s, i);
    case Lookup(i) => LookupKeepsInv(s, i);
    case Forget(i, n) => ForgetKeepsInv(s, i, n);
    case Open(_) => HoldStepsKeepInv(s, step);
    case Close(_) => UnholdStepsKeepInv(s, step);
    case Queue(_) => HoldStepsKeepInv(s, step);
    case Dequeue(_) => UnholdStepsKeepInv(s, step);
    case DropElement(_) => UnholdStepsKeepInv(s, step);
    case SetParent(i, p) => MoveKeepsInv(s, i, p);
    case Orphan(i) =>
      if s.parent[i] != i {
        MoveKeepsInv(s, i, i);
      }
    case Create(i, p) => CreateKeepsInv(s, i, p);
    case AddUninstantiated(i, p) => WaitingStays(s, Do(s, step));
    case RemoveUninstantiated(i) => WaitingStays(s, Do(s, step));
  }

  lemma MovedOwes(s: State, i: InodeId, p: InodeId)
    requires i in s.parent
    ensures s.parent[i] in Moved(s, i, p).temps
  {
  }

  lemma WaitingStays(s: State, t: State)
    requires Inv(s) && t == s.(waiting := t.waiting)
    requires forall c :: c in t.waiting ==> (c in s.waiting && s.waiting[c] == t.waiting[c]) || t.waiting[c] in s.parent
    ensures Inv(t)
  {
    WaitingKeepsInv(s, t);
  }

  // ---------------------------------------------------------------------------------------------
  // Runs

  function Start(): State {
    State(map[1 := 1, 2 := 2, 3 := 3], map[], map[], map[], multiset{}, multiset{}, multiset{})
  }

  ghost predicate Possible(s: State, steps: seq<Step>)
    decreases |steps|
  {
    steps == [] || (Enabled(s, steps[0]) && Possible(Do(s, steps[0]), steps[1..]))
  }

  function After(s: State, steps: seq<Step>): State
    requires Possible(s, steps)
    decreases |steps|
  {
    if steps == [] then s else After(Do(s, steps[0]), steps[1..])
  }

  lemma {:induction false} RunKeepsInv(s: State, steps: seq<Step>)
    requires Inv(s) && Possible(s, steps)
    ensures Inv(After(s, steps))
    decreases |steps|
  {
    if steps != [] {
      StepKeepsInv(s, steps[0]);
      RunKeepsInv(Do(s, steps[0]), steps[1..]);
    }
  }

  /** After any run: what is open, queued or in use is instantiated, and so is every parent, so that
      no old parent is ever missing; references are at least the holders, and never zero. */
  lemma NothingGoesTooSoon(steps: seq<Step>, i: InodeId)
    requires Possible(Start(), steps)
    ensures var s := After(Start(), steps);
      && (i in s.handles || i in s.queued || i in s.temps ==> i in s.parent)
      && (i in s.parent ==> s.parent[i] in s.parent)
      && (i in s.parent && !Permanent(i) ==> i in s.refs && s.refs[i] >= 1 && s.refs[i] >= Holders(s, i))
      && (i in s.waiting && i !in s.parent ==> (s.waiting[i] in s.parent <==> s.waiting[i] != i))
  {
    RunKeepsInv(Start(), steps);
    var s := After(Start(), steps);
    assert LiveParent(s.parent, i) && Held(s, i) >= 0;
    if i in s.parent && !Permanent(i) {
      assert Counted(s, i);
    }
  }

  // ---------------------------------------------------------------------------------------------
  // Parents

  /** The parent that a step gives an inode. */
  function ParentAfter(s: State, step: Step, c: InodeId): InodeId {
    match step
    case SetParent(i, p) => if i == c then p else ParentOf(s, c)
    case Orphan(i) => if i == c then c else ParentOf(s, c)
    case Create(i, p) => if i == c then p else ParentOf(s, c)
    case Instantiate(i, _) => if i == c && c in s.waiting then s.waiting[c] else ParentOf(s, c)
    case _ => ParentOf(s, c)
  }

  function ParentOf(s: State, c: InodeId): InodeId {
    if c in s.parent then s.parent[c] else c
  }

  /** Only operations on an inode change its parent, to the one asked for; a cascade takes inodes away and
      changes no other's. */
  lemma ParentsFollowSteps(s: State, step: Step, c: InodeId)
    requires Inv(s) && Enabled(s, step) && c in Do(s, step).parent
    ensures Do(s, step).parent[c] == ParentAfter(s, step, c)
    ensures c in s.parent || (step.Create? && step.i == c) || (step.Instantiate? && step.i == c)
  {
    hide Inv, DelRef, Born, Moved, WithTemp, IncrementLookup;
    match step
    case Instantiate(i, loaded) => BirthParents(s, i, s.waiting[i], 2, c);
    case GiveBack(i) => DelRefParentsIf(s, i, c);
    case Forget(i, n) => UnholdParents(s, s.(lookups := s.lookups - {i}), i, c);
    case Close(i) => UnholdParents(s, s.(handles := s.handles - multiset{i}), i, c);
    case Dequeue(i) => UnholdParents(s, s.(queued := s.queued - multiset{i}), i, c);
    case SetParent(i, p) => MoveParents(s, i, p, c);
    case Orphan(i) => MoveParents(s, i, i, c);
    case Create(i, p) => BirthParents(s, i, p, 1, c);
    case _ => OtherKeepsKnown(s, step);
  }

  lemma UnholdParents(s: State, u: State, i: InodeId, c: InodeId)
    requires u.parent == s.parent
    ensures var t := DelRef(WithTemp(u, i), i); c in t.parent ==> c in s.parent && t.parent[c] == s.parent[c]
  {
    hide DelRef;
    DelRefParentsIf(WithTemp(u, i), i, c);
  }

  lemma MoveParents(s: State, i: InodeId, p: InodeId, c: InodeId)
    requires i in s.parent
    ensures c in Reparent(s, i, p).parent ==>
      c in s.parent && Reparent(s, i, p).parent[c] == if c == i then p else s.parent[c]
  {
    hide DelRef;
    DelRefParentsIf(Moved(s, i, p), s.parent[i], c);
  }

  lemma BirthParents(s: State, i: InodeId, p: InodeId, n: nat, c: InodeId)
    ensures var t := Born(s, i, p, n).(waiting := s.waiting - {i});
      && t.parent == s.parent[i := p]
      && (c in DelRef(t, i).parent ==> c in t.parent && DelRef(t, i).parent[c] == t.parent[c])
    ensures var u := IncrementLookup(Born(s, i, p, n), i);
      c in DelRef(u, i).parent ==> (c == i || c in s.parent) && DelRef(u, i).parent[c] == s.parent[i := p][c]
  {
    hide DelRef;
    DelRefParentsIf(Born(s, i, p, n).(waiting := s.waiting - {i}), i, c);
    DelRefParentsIf(IncrementLookup(Born(s, i, p, n), i), i, c);
  }

  lemma DelRefParentsIf(s: State, i: InodeId, c: InodeId)
    ensures c in DelRef(s, i).parent ==> c in s.parent && DelRef(s, i).parent[c] == s.parent[c]
  {
    if c in DelRef(s, i).parent {
      DelRefParents(s, i, c);
    }
  }

  /** A new instance is there, waits no longer, and its children wait for theirs. */
  lemma InstantiateWaits(s: State, i: InodeId, loaded: map<InodeId, InodeId>)
    requires Inv(s) && Enabled(s, Instantiate(i, loaded))
    ensures var t := Do(s, Instantiate(i, loaded)); i in t.parent && t.waiting == (s.waiting - {i}) + loaded
  {
    var t := Born(s, i, s.waiting[i], 2).(waiting := s.waiting - {i});
    assert t.refs[i] >= 2 by {
      assert RefsPositive(s);
    }
    DelRefCases(t, i);
    hide Inv, DelRef;
  }

  /** Who is added to the uninstantiated inodes waits at the parent given, and who is removed no longer. */
  lemma WaitingFollowsSteps(s: State, step: Step)
    requires Enabled(s, step)
    ensures step.AddUninstantiated? ==> Do(s, step) == s.(waiting := s.waiting[step.i := step.p])
    ensures step.RemoveUninstantiated? ==> Do(s, step) == s.(waiting := s.waiting - {step.i})
    ensures step.Acquire? || step.NotFound? || step.Lookup? || step.Open? || step.Queue? || step.DropElement? ==>
      Do(s, step).waiting == s.waiting
  {
  }

  // ---------------------------------------------------------------------------------------------
  // Exact counts

  /** The references of an inode, and the holders that account for them. */
  function RefsOf(s: State, i: InodeId): int {
    if i in s.refs then s.refs[i] else 0
  }

  function Owed(s: State, i: InodeId): nat {
    if i in s.parent then Holders(s, i) else 0
  }

  /** The references that nobody will ever give back, told by the steps that leave them behind. */
  function Leaks(steps: seq<Step>): multiset<InodeId> {
    if steps == [] then multiset{} else StepLeaks(steps[0]) + Leaks(steps[1..])
  }

  function StepLeaks(step: Step): multiset<InodeId> {
    if step.NotFound? || step.DropElement? then multiset{step.i} else multiset{}
  }

  predicate ExactAt(s: State, leaks: multiset<InodeId>, i: InodeId) {
    Permanent(i) || RefsOf(s, i) == Owed(s, i) + leaks[i]
  }

  /** References are exactly the holders and what has leaked. */
  ghost predicate Exact(s: State, leaks: multiset<InodeId>) {
    forall i :: ExactAt(s, leaks, i)
  }

  /** An inode that is not there holds nobody and is held by nobody. */
  lemma AbsentIsFree(s: State, i: InodeId)
    requires Inv(s) && i !in s.parent
    ensures Held(s, i) == 0 && Kids(s.parent, i) == {}
  {
    NoKids(s, i);
  }

  lemma GoneExact(s: State, leaks: multiset<InodeId>, i: InodeId, j: InodeId)
    requires Inv(s) && i in s.temps && RunsOut(s, i) && ExactAt(s, leaks, i) && ExactAt(s, leaks, j)
    ensures ExactAt(Gone(s, i), leaks, j)
  {
    LastReference(s, i);
    KidsWithout(s.parent, i, j);
    hide Inv, Kids, Uninstantiated;
    var p, t := s.parent[i], Gone(s, i);
    assert i !in t.parent && i !in t.refs;
    if j != i {
      assert RefsOf(t, j) == RefsOf(s, j) && Known(t, j) == Known(s, j) && (j in t.parent <==> j in s.parent);
      assert Held(t, j) == Held(s, j) + if j == p && p != i then 1 else 0;
      InKids(s.parent, i, j);
      assert LiveParent(s.parent, i);
      hide Gone, Held, Known, RefsOf;
    }
  }

  lemma InKids(parent: map<InodeId, InodeId>, i: InodeId, j: InodeId)
    requires i in parent
    ensures i in Kids(parent, j) <==> parent[i] == j && i != j
  {
  }

  lemma DropExact(s: State, leaks: multiset<InodeId>, i: InodeId, j: InodeId)
    requires Inv(s) && i in s.temps && ExactAt(s, leaks, j)
    ensures ExactAt(Drop(s, i), leaks, j)
  {
    HeldIsLive(s, i);
  }

  lemma {:induction false} DelRefExact(s: State, leaks: multiset<InodeId>, i: InodeId)
    requires Inv(s) && i in s.temps && Exact(s, leaks)
    ensures Exact(DelRef(s, i), leaks)
    decreases |s.parent.Keys|
  {
    DelRefCases(s, i);
    hide Inv, DelRef, Drop, Gone, RunsOut, ExactAt;
    if !RunsOut(s, i) {
      forall j ensures ExactAt(Drop(s, i), leaks, j) {
        DropExact(s, leaks, i, j);
      }
    } else {
      GoneStep(s, i);
      forall j ensures ExactAt(Gone(s, i), leaks, j) {
        GoneExact(s, leaks, i, j);
      }
      if s.parent[i] != i {
        DelRefExact(Gone(s, i), leaks, s.parent[i]);
      }
    }
  }

  /** A cascade goes on at the parent, from a state that is as good. */
  lemma GoneStep(s: State, i: InodeId)
    requires Inv(s) && i in s.temps && RunsOut(s, i)
    ensures i in s.parent && Inv(Gone(s, i)) && |Gone(s, i).parent.Keys| < |s.parent.Keys|
    ensures s.parent[i] != i ==> s.parent[i] in Gone(s, i).temps
  {
    GoneKeepsInv(s, i);
    GoneIsFewer(s, i);
  }

  lemma BornExact(s: State, leaks: multiset<InodeId>, i: InodeId, p: InodeId, n: nat, j: InodeId)
    requires Inv(s) && !Permanent(i) && i !in s.parent && p in s.parent && ExactAt(s, leaks, j)
    requires i in s.lookups ==> n == 2
    ensures ExactAt(Born(s, i, p, n), leaks, j)
  {
    AbsentIsFree(s, i);
    KidsWith(s.parent, i, p, j);
    BornFacts(s, i, p, n, j);
    hide Inv, Kids, Held, Known, RefsOf, Born;
  }

  lemma BornFacts(s: State, i: InodeId, p: InodeId, n: nat, j: InodeId)
    requires i !in s.parent && p in s.parent && (i in s.lookups ==> n == 2)
    ensures var t := Born(s, i, p, n);
      && t.parent == s.parent[i := p] && Known(t, j) == Known(s, j)
      && Held(t, j) == Held(s, j) + (if j == i then n - Known(s, i) else 0)
      && RefsOf(t, j) == RefsOf(s, j) + (if j == i then n else 0) + (if j == p && !Permanent(p) then 1 else 0)
  {
  }

  lemma MovedExact(s: State, leaks: multiset<InodeId>, i: InodeId, p: InodeId, j: InodeId)
    requires i in s.parent && s.parent[i] != i && p in s.parent && LiveParent(s.parent, i) && ExactAt(s, leaks, j)
    ensures ExactAt(Moved(s, i, p), leaks, j)
  {
    KidsWith(s.parent, i, p, j);
    InKids(s.parent, i, j);
    hide Kids;
    var t := Moved(s, i, p);
    assert Known(t, j) == Known(s, j) && Held(t, j) == Held(s, j) + if j == s.parent[i] then 1 else 0;
    assert RefsOf(t, j) == RefsOf(s, j) + if j == p && p != i && !Permanent(p) then 1 else 0;
    hide Held, Known, RefsOf;
  }

  /** The steps that take or swap references of one inode. */
  lemma HoldExact(s: State, leaks: multiset<InodeId>, step: Step, j: InodeId)
    requires Inv(s) && Enabled(s, step) && ExactAt(s, leaks, j)
    requires step.Acquire? || step.Open? || step.Queue? || step.NotFound? || step.Lookup? || step.DropElement?
    ensures ExactAt(Do(s, step), leaks + StepLeaks(step), j)
  {
    assert step.DropElement? ==> Held(s, step.i) > 0 && step.i in s.parent;
    hide Inv, Kids;
    if step.Lookup? {
      LookupExact(s, leaks, step.i, j);
      assert leaks + StepLeaks(step) == leaks;
    } else if step.NotFound? || step.DropElement? {
      LeakExact(s, leaks, step, j);
    } else {
      TakeExact(s, leaks, step, j);
      assert leaks + StepLeaks(step) == leaks;
    }
  }

  lemma LookupExact(s: State, leaks: multiset<InodeId>, i: InodeId, j: InodeId)
    requires ExactAt(s, leaks, j)
    ensures ExactAt(IncrementLookup(s, i), leaks, j)
  {
    hide Kids;
  }

  lemma LeakExact(s: State, leaks: multiset<InodeId>, step: Step, j: InodeId)
    requires Enabled(s, step) && ExactAt(s, leaks, j)
    requires step.NotFound? || (step.DropElement? && step.i in s.parent)
    ensures ExactAt(Do(s, step), leaks + StepLeaks(step), j)
  {
    hide Kids;
  }

  lemma TakeExact(s: State, leaks: multiset<InodeId>, step: Step, j: InodeId)
    requires Enabled(s, step) && ExactAt(s, leaks, j) && (step.Acquire? || step.Open? || step.Queue?)
    ensures ExactAt(Do(s, step), leaks, j)
  {
    hide Kids;
    var t := Do(s, step);
    assert t.parent == s.parent && Known(t, j) == Known(s, j);
    assert Held(t, j) == Held(s, j) + if j == step.i then 1 else 0;
    hide Held, Known;
  }

  lemma GiveBackExact(s: State, t: State, leaks: multiset<InodeId>, i: InodeId)
    requires Exact(s, leaks) && t.parent == s.parent && t.refs == s.refs
    requires forall j :: Known(t, j) + Held(t, j) == Known(s, j) + Held(s, j)
    requires Inv(t) && i in t.temps
    ensures Exact(DelRef(t, i), leaks)
  {
    forall j ensures ExactAt(t, leaks, j) {
      assert ExactAt(s, leaks, j);
    }
    DelRefExact(t, leaks, i);
  }

  lemma UnholdExact(s: State, leaks: multiset<InodeId>, step: Step)
    requires Inv(s) && Enabled(s, step) && Exact(s, leaks) && (step.Close? || step.Dequeue?)
    ensures Exact(Do(s, step), leaks)
  {
    var u := if step.Close? then s.(handles := s.handles - multiset{step.i})
             else s.(queued := s.queued - multiset{step.i});
    var t := WithTemp(u, step.i);
    assert forall j :: Held(t, j) == Held(s, j);
    hide Inv, DelRef, Exact, Held;
    UnholdKeepsInv(s, t, step.i);
    GiveBackExact(s, t, leaks, step.i);
  }

  lemma ForgetExact(s: State, leaks: multiset<InodeId>, i: InodeId, n: nat)
    requires Inv(s) && i in s.lookups && Exact(s, leaks)
    ensures Exact(ForgetLookups(s, i, n), leaks)
  {
    var t := ForgetLookups(s, i, n);
    if i == INODE_ID_ROOT || i == INODE_ID_API {
    } else if n != s.lookups[i] || i !in s.parent {
      forall j ensures ExactAt(t, leaks, j) {
        assert ExactAt(s, leaks, j);
      }
    } else {
      var u := WithTemp(s.(lookups := s.lookups - {i}), i);
      FewerLookups(s, u, i);
      assert forall j :: Known(u, j) + Held(u, j) == Known(s, j) + Held(s, j);
      hide Inv, DelRef, Exact, Held, Known;
      GiveBackExact(s, u, leaks, i);
    }
  }

  lemma InstantiateExact(s: State, leaks: multiset<InodeId>, i: InodeId, loaded: map<InodeId, InodeId>)
    requires Inv(s) && Enabled(s, Instantiate(i, loaded)) && Exact(s, leaks)
    ensures Exact(Do(s, Instantiate(i, loaded)), leaks)
  {
    var b := Born(s, i, s.waiting[i], 2);
    var t := b.(waiting := s.waiting - {i});
    BornKeepsInv(s, i, s.waiting[i], 2);
    WaitingKeepsInv(b, t);
    forall j ensures ExactAt(t, leaks, j) {
      assert ExactAt(s, leaks, j);
      BornExact(s, leaks, i, s.waiting[i], 2, j);
      WaitingIsFree(b, t.waiting, leaks, j);
    }
    hide Inv, Born;
    if i !in s.lookups {
      DelRefExact(t, leaks, i);
    }
    var u := if i in s.lookups then t else DelRef(t, i);
    forall j ensures ExactAt(u.(waiting := u.waiting + loaded), leaks, j) {
      assert ExactAt(u, leaks, j);
      WaitingIsFree(u, u.waiting + loaded, leaks, j);
    }
  }

  /** Who waits does not matter. */
  lemma WaitingIsFree(s: State, waiting: map<InodeId, InodeId>, leaks: multiset<InodeId>, j: InodeId)
    ensures ExactAt(s.(waiting := waiting), leaks, j) <==> ExactAt(s, leaks, j)
  {
  }

  lemma CreateExact(s: State, leaks: multiset<InodeId>, i: InodeId, p: InodeId)
    requires Inv(s) && Enabled(s, Create(i, p)) && Exact(s, leaks)
    ensures Exact(Do(s, Create(i, p)), leaks)
  {
    var b := Born(s, i, p, 1);
    BornKeepsInv(s, i, p, 1);
    LookupKeepsInv(b, i);
    var t := IncrementLookup(b, i);
    forall j ensures ExactAt(t, leaks, j) {
      assert ExactAt(s, leaks, j);
      BornExact(s, leaks, i, p, 1, j);
      HoldExact(b, leaks, Lookup(i), j);
    }
    hide Inv, Born, IncrementLookup;
    DelRefExact(t, leaks, i);
  }

  lemma MoveExact(s: State, leaks: multiset<InodeId>, i: InodeId, p: InodeId)
    requires Inv(s) && !Permanent(i) && i in s.parent && s.parent[i] != i && p in s.parent && Exact(s, leaks)
    ensures Exact(Reparent(s, i, p), leaks)
  {
    assert LiveParent(s.parent, i);
    MovedKeepsInv(s, i, p);
    MovedOwes(s, i, p);
    hide Inv, Moved;
    forall j ensures ExactAt(Moved(s, i, p), leaks, j) {
      assert ExactAt(s, leaks, j);
      MovedExact(s, leaks, i, p, j);
    }
    DelRefExact(Moved(s, i, p), leaks, s.parent[i]);
  }

  /** Every step keeps the account. */
  lemma StepExact(s: State, leaks: multiset<InodeId>, step: Step)
    requires Inv(s) && Enabled(s, step) && Exact(s, leaks)
    ensures Exact(Do(s, step), leaks + StepLeaks(step))
  {
    hide Inv, Born, DelRef, Moved, IncrementLookup, ForgetLookups, WithTemp, AddRef, AddInodeRef, ExactAt;
    assert !(step.NotFound? || step.DropElement?) ==> leaks + StepLeaks(step) == leaks;
    match step
    case Instantiate(i, loaded) => InstantiateExact(s, leaks, i, loaded);
    case GiveBack(i) => DelRefExact(s, leaks, i);
    case Forget(i, n) => ForgetExact(s, leaks, i, n);
    case Close(_) => UnholdExact(s, leaks, step);
    case Dequeue(_) => UnholdExact(s, leaks, step);
    case SetParent(i, p) => MoveExact(s, leaks, i, p);
    case Orphan(i) =>
      if s.parent[i] != i {
        MoveExact(s, leaks, i, i);
      }
    case Create(i, p) => CreateExact(s, leaks, i, p);
    case AddUninstantiated(i, p) =>
      forall j ensures ExactAt(Do(s, step), leaks, j) {
        WaitingIsFree(s, Do(s, step).waiting, leaks, j);
      }
    case RemoveUninstantiated(i) =>
      forall j ensures ExactAt(Do(s, step), leaks, j) {
        WaitingIsFree(s, Do(s, step).waiting, leaks, j);
      }
    case _ =>
      forall j ensures ExactAt(Do(s, step), leaks + StepLeaks(step), j) {
        HoldExact(s, leaks, step, j);
      }
  }

  lemma {:induction false} RunExact(s: State, leaks: multiset<InodeId>, steps: seq<Step>)
    requires Inv(s) && Possible(s, steps) && Exact(s, leaks)
    ensures Exact(After(s, steps), leaks + Leaks(steps))
    decreases |steps|
  {
    hide Inv, Exact, Do, Enabled;
    if steps == [] {
      assert leaks + Leaks(steps) == leaks;
    } else {
      StepKeepsInv(s, steps[0]);
      StepExact(s, leaks, steps[0]);
      RunExact(Do(s, steps[0]), leaks + StepLeaks(steps[0]), steps[1..]);
      assert leaks + StepLeaks(steps[0]) + Leaks(steps[1..]) == leaks + Leaks(steps);
    }
  }

  /** After any run the references of an inode are exactly its lookups, handles, queue elements, running
      code and children, and those left behind by failed lookups and failed flushes; without any of
      these it is not there. */
  lemma ReferencesAreExact(steps: seq<Step>, i: InodeId)
    requires Possible(Start(), steps) && !Permanent(i)
    ensures var s := After(Start(), steps);
      && (i in s.parent ==> i in s.refs && s.refs[i] == Holders(s, i) + Leaks(steps)[i])
      && (i !in s.parent ==> (if i in s.refs then s.refs[i] else 0) == Leaks(steps)[i])
  {
    RunKeepsInv(Start(), steps);
    assert forall j :: Known(Start(), j) + Held(Start(), j) == 0;
    assert Exact(Start(), multiset{}) by {
      forall j ensures ExactAt(Start(), multiset{}, j) {
      }
    }
    RunExact(Start(), multiset{}, steps);
    assert multiset{} + Leaks(steps) == Leaks(steps);
    var s := After(Start(), steps);
    assert ExactAt(s, Leaks(steps), i);
    if i in s.parent {
      assert Counted(s, i);
    }
  }

  // ---------------------------------------------------------------------------------------------
  // Lookups

  /** The lookups of an inode that a run leaves, told by its steps: forgets of the root and of the API
      file are ignored. */
  function Tally(steps: seq<Step>, i: InodeId): int {
    if steps == [] then 0 else StepTally(steps[0], i) + Tally(steps[1..], i)
  }

  function StepTally(step: Step, i: InodeId): int {
    if (step.Lookup? || step.Create?) && step.i == i then 1
    else if step.Forget? && step.i == i && i != INODE_ID_ROOT && i != INODE_ID_API then -(step.n as int)
    else 0
  }

  function LookupsOf(s: State, i: InodeId): nat {
    if i in s.lookups then s.lookups[i] else 0
  }

  /** Recorded counts are positive. */
  predicate LookupsPositive(s: State) {
    forall i :: i in s.lookups ==> s.lookups[i] > 0
  }

  lemma {:induction false} DelRefLookups(s: State, i: InodeId)
    ensures DelRef(s, i).lookups == s.lookups
    decreases |s.parent.Keys|
  {
    if RunsOut(s, i) && s.parent[i] != i {
      GoneIsFewer(s, i);
      DelRefLookups(Gone(s, i), s.parent[i]);
    }
  }

  lemma StepTallies(s: State, step: Step, i: InodeId)
    requires Enabled(s, step) && LookupsPositive(s)
    ensures LookupsPositive(Do(s, step))
    ensures LookupsOf(Do(s, step), i) == LookupsOf(s, i) + StepTally(step, i)
  {
    hide Do, Enabled;
    StepLookups(s, step);
    MapTallies(s.lookups, Do(s, step).lookups, step, i);
  }

  lemma MapTallies(before: map<InodeId, nat>, after: map<InodeId, nat>, step: Step, i: InodeId)
    requires forall j :: j in before ==> before[j] > 0
    requires after ==
      if step.Lookup? || step.Create? then before[step.i := (if step.i in before then before[step.i] else 0) + 1]
      else if !step.Forget? || step.i == INODE_ID_ROOT || step.i == INODE_ID_API then before
      else if step.i !in before || step.n >= before[step.i] then before - {step.i}
      else before[step.i := before[step.i] - step.n]
    requires step.Forget? ==> step.i in before && step.n <= before[step.i]
    ensures forall j :: j in after ==> after[j] > 0
    ensures (if i in after then after[i] else 0) == (if i in before then before[i] else 0) + StepTally(step, i)
  {
  }

  /** What a step does to the lookup counts. */
  lemma StepLookups(s: State, step: Step)
    requires Enabled(s, step)
    ensures Do(s, step).lookups ==
      if step.Lookup? || step.Create? then s.lookups[step.i := LookupsOf(s, step.i) + 1]
      else if !step.Forget? || step.i == INODE_ID_ROOT || step.i == INODE_ID_API then s.lookups
      else if step.n == s.lookups[step.i] then s.lookups - {step.i}
      else s.lookups[step.i := s.lookups[step.i] - step.n]
    ensures step.Forget? ==> step.i in s.lookups && step.n <= s.lookups[step.i]
    ensures step.Create? ==> step.i !in s.lookups
  {
    hide DelRef, Born, Moved;
    match step
    case Lookup(_) =>
    case Forget(j, n) => DelRefLookups(WithTemp(s.(lookups := s.lookups - {j}), j), j);
    case Create(j, p) => CreateLookups(s, j, p);
    case _ => OtherLookups(s, step);
  }

  lemma CreateLookups(s: State, j: InodeId, p: InodeId)
    requires Enabled(s, Create(j, p))
    ensures Do(s, Create(j, p)).lookups == s.lookups[j := 1]
  {
    hide DelRef;
    assert Born(s, j, p, 1).lookups == s.lookups;
    DelRefLookups(IncrementLookup(Born(s, j, p, 1), j), j);
  }

  lemma OtherLookups(s: State, step: Step)
    requires Enabled(s, step) && !step.Lookup? && !step.Forget? && !step.Create?
    ensures Do(s, step).lookups == s.lookups
  {
    hide DelRef, Born, Moved, WithTemp;
    match step
    case Instantiate(j, loaded) => InstantiateLookups(s, j, loaded);
    case GiveBack(j) => DelRefLookups(s, j);
    case Close(j) => UnholdLookups(s, s.(handles := s.handles - multiset{j}), j);
    case Dequeue(j) => UnholdLookups(s, s.(queued := s.queued - multiset{j}), j);
    case SetParent(j, p) => MoveLookups(s, j, p);
    case Orphan(j) => MoveLookups(s, j, j);
    case _ => HoldLookups(s, step);
  }

  lemma HoldLookups(s: State, step: Step)
    requires Enabled(s, step) && (step.Acquire? || step.Open? || step.Queue? || step.NotFound?
                                  || step.DropElement? || step.AddUninstantiated? || step.RemoveUninstantiated?)
    ensures Do(s, step).lookups == s.lookups
  {
  }

  lemma UnholdLookups(s: State, u: State, i: InodeId)
    requires u.lookups == s.lookups
    ensures DelRef(WithTemp(u, i), i).lookups == s.lookups
  {
    hide DelRef;
    DelRefLookups(WithTemp(u, i), i);
  }

  lemma InstantiateLookups(s: State, i: InodeId, loaded: map<InodeId, InodeId>)
    requires Enabled(s, Instantiate(i, loaded))
    ensures Do(s, Instantiate(i, loaded)).lookups == s.lookups
  {
    hide DelRef, Born;
    BornLookups(s, i, s.waiting[i], 2);
    DelRefLookups(Born(s, i, s.waiting[i], 2).(waiting := s.waiting - {i}), i);
  }

  lemma BornLookups(s: State, i: InodeId, p: InodeId, n: nat)
    ensures Born(s, i, p, n).lookups == s.lookups
  {
  }

  lemma MoveLookups(s: State, i: InodeId, p: InodeId)
    requires i in s.parent
    ensures Reparent(s, i, p).lookups == s.lookups
  {
    hide DelRef;
    DelRefLookups(Moved(s, i, p), s.parent[i]);
  }

  lemma {:induction false} RunTallies(s: State, steps: seq<Step>, i: InodeId)
    requires Possible(s, steps) && LookupsPositive(s)
    ensures LookupsPositive(After(s, steps))
    ensures LookupsOf(After(s, steps), i) == LookupsOf(s, i) + Tally(steps, i)
    decreases |steps|
  {
    hide Do, Enabled, LookupsPositive, LookupsOf;
    if steps != [] {
      StepTallies(s, steps[0], i);
      RunTallies(Do(s, steps[0]), steps[1..], i);
    }
  }

  /** After any run the count recorded for an inode is the number of its lookups, creation included, less
      all that was forgotten, and there is one exactly while that is positive. */
  lemma LookupsAreTallied(steps: seq<Step>, i: InodeId)
    requires Possible(Start(), steps)
    ensures var s := After(Start(), steps);
      && Tally(steps, i) >= 0 && (i in s.lookups <==> Tally(steps, i) > 0)
      && (i in s.lookups ==> s.lookups[i] == Tally(steps, i))
  {
    RunTallies(Start(), steps, i);
  }

  /** An inode with lookups is not among those that a cascade takes. */
  lemma {:induction false} DelRefKeepsKnown(s: State, i: InodeId, j: InodeId)
    requires Inv(s) && i in s.temps && j in s.parent && j in s.lookups
    ensures j in DelRef(s, i).parent
    decreases |s.parent.Keys|
  {
    if RunsOut(s, i) {
      LastReference(s, i);
      GoneStep(s, i);
      assert j in Gone(s, i).parent && j in Gone(s, i).lookups;
      hide Inv, Gone;
      if s.parent[i] != i {
        DelRefKeepsKnown(Gone(s, i), s.parent[i], j);
      }
    }
  }

  lemma StepKeepsKnown(s: State, step: Step, j: InodeId)
    requires Inv(s) && Enabled(s, step) && j in s.parent && j in s.lookups && j in Do(s, step).lookups
    ensures j in Do(s, step).parent
  {
    hide Inv, DelRef, Born, Moved, IncrementLookup, Held;
    match step
    case Instantiate(i, loaded) => InstantiateKeepsKnown(s, i, loaded, j);
    case GiveBack(i) => DelRefKeepsKnown(s, i, j);
    case Forget(i, n) => ForgetKeepsKnown(s, i, n, j);
    case Close(i) => CloseKeepsKnown(s, step, j);
    case Dequeue(i) => CloseKeepsKnown(s, step, j);
    case SetParent(i, p) => MoveKeepsKnown(s, i, p, j);
    case Orphan(i) =>
      if s.parent[i] != i {
        MoveKeepsKnown(s, i, i, j);
      }
    case Create(i, p) => CreateKeepsKnown(s, i, p, j);
    case _ => OtherKeepsKnown(s, step);
  }

  lemma OtherKeepsKnown(s: State, step: Step)
    requires Enabled(s, step) && (step.Acquire? || step.Open? || step.Queue? || step.NotFound? || step.Lookup?
                                  || step.DropElement? || step.AddUninstantiated? || step.RemoveUninstantiated?)
    ensures Do(s, step).parent == s.parent
  {
  }

  lemma InstantiateKeepsKnown(s: State, i: InodeId, loaded: map<InodeId, InodeId>, j: InodeId)
    requires Inv(s) && Enabled(s, Instantiate(i, loaded)) && j in s.parent && j in s.lookups
    ensures j in Do(s, Instantiate(i, loaded)).parent
  {
    var b := Born(s, i, s.waiting[i], 2);
    BornKeepsInv(s, i, s.waiting[i], 2);
    var t := b.(waiting := s.waiting - {i});
    WaitingKeepsInv(b, t);
    assert j in t.parent && j in t.lookups;
    hide Inv, DelRef, Born;
    if i !in s.lookups {
      DelRefKeepsKnown(t, i, j);
    }
  }

  lemma ForgetKeepsKnown(s: State, i: InodeId, n: nat, j: InodeId)
    requires Inv(s) && i in s.lookups && j in s.parent && j in s.lookups && j in ForgetLookups(s, i, n).lookups
    ensures j in ForgetLookups(s, i, n).parent
  {
    if i in s.parent && n == s.lookups[i] && i != INODE_ID_ROOT && i != INODE_ID_API {
      var t := WithTemp(s.(lookups := s.lookups - {i}), i);
      hide Inv, DelRef;
      DelRefLookups(t, i);
      FewerLookups(s, t, i);
      DelRefKeepsKnown(t, i, j);
    }
  }

  lemma CloseKeepsKnown(s: State, step: Step, j: InodeId)
    requires Inv(s) && Enabled(s, step) && (step.Close? || step.Dequeue?) && j in s.parent && j in s.lookups
    ensures j in Do(s, step).parent
  {
    hide Inv, DelRef;
    var u := if step.Close? then s.(handles := s.handles - multiset{step.i})
             else s.(queued := s.queued - multiset{step.i});
    assert Held(s, step.i) > 0 && forall k :: Held(WithTemp(u, step.i), k) <= Held(s, k);
    UnheldKeepsKnown(s, u, step.i, j);
  }

  lemma CreateKeepsKnown(s: State, i: InodeId, p: InodeId, j: InodeId)
    requires Inv(s) && Enabled(s, Create(i, p)) && j in s.parent && j in s.lookups
    ensures j in Do(s, Create(i, p)).parent
  {
    var b := Born(s, i, p, 1);
    BornKeepsInv(s, i, p, 1);
    LookupKeepsInv(b, i);
    var t := IncrementLookup(b, i);
    assert i in t.temps && j in t.parent && j in t.lookups;
    hide Inv, DelRef, Born, IncrementLookup;
    DelRefKeepsKnown(t, i, j);
  }

  lemma UnheldKeepsKnown(s: State, u: State, i: InodeId, j: InodeId)
    requires Inv(s) && j in s.parent && j in s.lookups && Held(s, i) > 0
    requires u == s.(handles := u.handles, queued := u.queued)
    requires forall k :: Held(WithTemp(u, i), k) <= Held(s, k)
    ensures j in DelRef(WithTemp(u, i), i).parent
  {
    UnholdKeepsInv(s, WithTemp(u, i), i);
    hide Inv;
    DelRefKeepsKnown(WithTemp(u, i), i, j);
  }

  lemma MoveKeepsKnown(s: State, i: InodeId, p: InodeId, j: InodeId)
    requires Inv(s) && !Permanent(i) && i in s.parent && s.parent[i] != i && p in s.parent
    requires j in s.parent && j in s.lookups
    ensures j in Reparent(s, i, p).parent
  {
    MovedKeepsInv(s, i, p);
    MovedOwes(s, i, p);
    assert j in Moved(s, i, p).parent && j in Moved(s, i, p).lookups;
    hide Inv, Moved;
    DelRefKeepsKnown(Moved(s, i, p), s.parent[i], j);
  }

  lemma {:induction false} AfterLast(s: State, steps: seq<Step>, step: Step)
    requires Possible(s, steps + [step])
    ensures Possible(s, steps) && Enabled(After(s, steps), step)
    ensures After(s, steps + [step]) == Do(After(s, steps), step)
    decreases |steps|
  {
    hide Do, Enabled;
    if steps == [] {
      assert (steps + [step])[1..] == [] && (steps + [step])[0] == step;
    } else {
      assert (steps + [step])[1..] == steps[1..] + [step];
      AfterLast(Do(s, steps[0]), steps[1..], step);
    }
  }

  lemma {:induction false} TallyLast(steps: seq<Step>, step: Step, i: InodeId)
    ensures Tally(steps + [step], i) == Tally(steps, i) + StepTally(step, i)
  {
    if steps != [] {
      assert (steps + [step])[1..] == steps[1..] + [step];
      TallyLast(steps[1..], step, i);
    }
  }

  /** An instantiated inode is not uninstantiated by any step of any run, a forget or another, while
      lookups of it remain; a forget that leaves some changes nothing but the count. */
  lemma LookedUpStays(steps: seq<Step>, step: Step, i: InodeId)
    requires Possible(Start(), steps + [step]) && Possible(Start(), steps)
    requires Tally(steps, i) > 0 && Tally(steps + [step], i) > 0
    ensures var s, t := After(Start(), steps), After(Start(), steps + [step]);
      && (i in s.parent ==> i in t.parent)
      && (step.Forget? && step.i == i ==> t == s.(lookups := t.lookups))
  {
    StartInv();
    hide Inv, Possible, After, Tally, Do, Enabled, Start, StepTally;
    var s := After(Start(), steps);
    AfterLast(Start(), steps, step);
    LookupsAreTallied(steps, i);
    LookupsAreTallied(steps + [step], i);
    TallyLast(steps, step, i);
    RunKeepsInv(Start(), steps);
    if i in s.parent {
      StepKeepsKnown(s, step, i);
    }
    PartialForget(s, step, i);
  }

  lemma StartInv()
    ensures Inv(Start())
  {
    assert forall j :: Known(Start(), j) + Held(Start(), j) == 0;
  }

  lemma PartialForget(s: State, step: Step, i: InodeId)
    requires Enabled(s, step) && LookupsOf(s, i) + StepTally(step, i) > 0
    ensures step.Forget? && step.i == i ==> var t := Do(s, step); t == s.(lookups := t.lookups)
  {
  }

  /** The ancestor that is n parents up. */
  function Up(parent: map<InodeId, InodeId>, i: InodeId, n: nat): InodeId
    decreases n
  {
    if n == 0 || i !in parent then i else Up(parent, parent[i], n - 1)
  }

  /** Giving back a reference takes away the inode and ancestors of it, at most. */
  lemma {:induction false} OnlyAncestorsGo(s: State, i: InodeId, j: InodeId) returns (n: nat)
    requires j in s.parent && j !in DelRef(s, i).parent
    ensures Up(s.parent, i, n) == j
    decreases |s.parent.Keys|
  {
    hide DelRef, Gone;
    if j == i {
      n := 0;
    } else {
      TakesParent(s, i, j);
      GoneIsFewer(s, i);
      var m := OnlyAncestorsGo(Gone(s, i), s.parent[i], j);
      UpWithout(s.parent, i, s.parent[i], m, j);
      n := m + 1;
    }
  }

  lemma TakesParent(s: State, i: InodeId, j: InodeId)
    requires j != i && j in s.parent && j !in DelRef(s, i).parent
    ensures i in s.parent && s.parent[i] != i && Gone(s, i).parent == s.parent - {i}
    ensures j in Gone(s, i).parent && j !in DelRef(Gone(s, i), s.parent[i]).parent
  {
  }

  lemma {:induction false} UpWithout(parent: map<InodeId, InodeId>, i: InodeId, k: InodeId, n: nat, j: InodeId)
    requires Up(parent - {i}, k, n) == j && j in parent - {i}
    ensures Up(parent, k, n) == j
    decreases n
  {
    if n > 0 && k in parent - {i} {
      UpWithout(parent, i, parent[k], n - 1, j);
    }
  }

  // ---------------------------------------------------------------------------------------------
  // Where the code relies on its callers

  lemma {:induction false} DelRefHeld(s: State, i: InodeId, j: InodeId)
    requires i in s.temps
    ensures Held(DelRef(s, i), j) == Held(s, j) - if i == j then 1 else 0
    ensures j !in s.parent ==> j !in DelRef(s, i).parent
    decreases |s.parent.Keys|
  {
    if RunsOut(s, i) && s.parent[i] != i {
      GoneIsFewer(s, i);
      DelRefHeld(Gone(s, i), s.parent[i], j);
    }
  }

  /** The inode is not below itself. */
  ghost predicate NoCycle(parent: map<InodeId, InodeId>, i: InodeId) {
    forall c, n: nat :: c in Kids(parent, i) ==> Up(parent, i, n) != c
  }

  /** There is a reference to spare: taking it does no harm. */
  lemma SpareReference(s: State, i: InodeId)
    requires Inv(s) && i in s.parent && !Permanent(i) && s.refs[i] > Holders(s, i)
    ensures Inv(WithTemp(s, i))
  {
    var t := WithTemp(s, i);
    forall j | j in t.parent && !Permanent(j) ensures Counted(t, j) {
      assert Counted(s, j);
      assert Held(t, j) == Held(s, j) + if i == j then 1 else 0;
    }
    hide AllCounted;
    assert forall j :: Held(t, j) == Held(s, j) + if i == j then 1 else 0;
    hide Held;
  }

  /** Taking a reference that somebody holds leaves the holder without: a handle, queue element or
      running code on an inode that is gone, children of a parent that is gone, or too low a count. */
  lemma StolenReference(s: State, i: InodeId)
    requires Inv(s) && i in s.parent && !Permanent(i) && s.refs[i] <= Holders(s, i) && i !in s.lookups
    requires Held(s, i) > 0 || NoCycle(s.parent, i)
    ensures !Inv(DelRef(WithTemp(s, i), i))
  {
    var t := WithTemp(s, i);
    var u := DelRef(t, i);
    assert Counted(s, i);
    DelRefHeld(t, i, i);
    assert Held(u, i) == Held(s, i);
    if s.refs[i] == 1 {
      if s.parent[i] != i {
        DelRefHeld(Gone(t, i), s.parent[i], i);
      }
      assert i !in u.parent;
      if Held(s, i) == 0 {
        var c :| c in Kids(s.parent, i);
        assert c in u.parent by {
          if c !in u.parent {
            var n := OnlyAncestorsGo(t, i, c);
            assert false;
          }
        }
        DelRefParents(t, i, c);
        assert !LiveParent(u.parent, c);
      }
    } else {
      assert u.parent == s.parent && Known(u, i) == Known(s, i) && u.refs[i] == s.refs[i] - 1;
      assert !Counted(u, i);
    }
  }

  lemma {:induction false} DelRefParents(s: State, i: InodeId, c: InodeId)
    requires c in DelRef(s, i).parent
    ensures c in s.parent && DelRef(s, i).parent[c] == s.parent[c]
    decreases |s.parent.Keys|
  {
    if RunsOut(s, i) && s.parent[i] != i {
      GoneIsFewer(s, i);
      DelRefParents(Gone(s, i), s.parent[i], c);
    }
  }

  /** A forget leaves all references counted if and only if there was a lookup to forget or a reference
      to spare, whoever else holds the inode. */
  lemma ForgetSafeIff(s: State, i: InodeId, n: nat)
    requires Inv(s) && i in s.parent && !Permanent(i)
    requires Held(s, i) > 0 || NoCycle(s.parent, i)
    ensures Inv(ForgetLookups(s, i, n)) <==> i in s.lookups || s.refs[i] > Holders(s, i)
  {
    if i in s.lookups {
      ForgetKeepsInv(s, i, n);
    } else {
      assert s.lookups - {i} == s.lookups;
      if s.refs[i] > Holders(s, i) {
        SpareReference(s, i);
        DelRefKeepsInv(WithTemp(s, i), i);
      } else {
        StolenReference(s, i);
      }
    }
  }

  /** When the last reference to an orphan goes it is left waiting at itself, where nothing can
      instantiate it: a later lookup finds no parent. */
  lemma OrphanIsLeftWaiting(s: State, i: InodeId)
    requires Inv(s) && i in s.temps && RunsOut(s, i)
    ensures s.parent[i] == i <==> var t := DelRef(s, i); i in t.waiting && t.waiting[i] == i && i !in t.parent
  {
    if s.parent[i] != i {
      GoneKeepsInv(s, i);
      WaitingElsewhere(Gone(s, i), s.parent[i], i);
    }
  }

  /** Who waits where after a reference was given back: an inode that went waits at its parent, unless
      that went too; of the others exactly those stay whose parent does. */
  ghost predicate WaitsAfter(s: State, t: State, c: InodeId) {
    if c in s.parent && c !in t.parent then
      if s.parent[c] == c || s.parent[c] in t.parent then c in t.waiting && t.waiting[c] == s.parent[c]
      else c !in t.waiting
    else
      && (c in t.waiting <==> c in s.waiting && (s.waiting[c] == c || s.waiting[c] in t.parent))
      && (c in t.waiting ==> t.waiting[c] == s.waiting[c])
  }

  lemma {:induction false} WaitsAtParent(s: State, i: InodeId, c: InodeId)
    requires Inv(s) && i in s.temps
    ensures WaitsAfter(s, DelRef(s, i), c)
    decreases |s.parent.Keys|
  {
    assert WaitingLive(s);
    DelRefCases(s, i);
    hide Inv, DelRef, WaitsAfter, WaitingLive, RunsOut, Gone;
    if !RunsOut(s, i) {
      WaitsDropped(s, i, c);
    } else {
      GoneStep(s, i);
      if s.parent[i] == i {
        WaitsGone(s, i, c);
      } else {
        WaitsAtParent(Gone(s, i), s.parent[i], c);
        AbsentStays(s, i);
        WaitsChain(s, i, DelRef(s, i), c);
      }
    }
  }

  lemma AbsentStays(s: State, i: InodeId)
    requires i in s.parent && s.parent[i] != i
    ensures i !in DelRef(Gone(s, i), s.parent[i]).parent
  {
    DelRefHeld(Gone(s, i), s.parent[i], i);
  }

  lemma WaitsDropped(s: State, i: InodeId, c: InodeId)
    requires WaitingLive(s)
    ensures WaitsAfter(s, Drop(s, i), c)
  {
  }

  lemma WaitsGone(s: State, i: InodeId, c: InodeId)
    requires WaitingLive(s) && i in s.parent && s.parent[i] == i
    ensures WaitsAfter(s, Gone(s, i), c)
  {
  }

  lemma WaitsChain(s: State, i: InodeId, t: State, c: InodeId)
    requires i in s.parent && s.parent[i] != i && i !in t.parent && WaitsAfter(Gone(s, i), t, c)
    ensures WaitsAfter(s, t, c)
  {
  }

  lemma {:induction false} WaitingElsewhere(s: State, p: InodeId, i: InodeId)
    requires i !in s.parent && i in s.waiting && s.waiting[i] != i
    ensures var t := DelRef(s, p); i in t.waiting ==> t.waiting[i] != i
    decreases |s.parent.Keys|
  {
    if RunsOut(s, p) && s.parent[p] != p {
      GoneIsFewer(s, p);
      if i in Gone(s, p).waiting {
        WaitingElsewhere(Gone(s, p), s.parent[p], i);
      } else {
        NotWaiting(Gone(s, p), s.parent[p], i);
      }
    }
  }

  lemma {:induction false} NotWaiting(s: State, p: InodeId, i: InodeId)
    requires i !in s.parent && i !in s.waiting
    ensures i !in DelRef(s, p).waiting
    decreases |s.parent.Keys|
  {
    if RunsOut(s, p) && s.parent[p] != p {
      GoneIsFewer(s, p);
      NotWaiting(Gone(s, p), s.parent[p], i);
    }
  }

  // ---------------------------------------------------------------------------------------------
  // In place

  class QuantumFs {
    var inodes: map<InodeId, InodeId>
    var inodeRefcounts: map<InodeId, int>
    var lookupCounts: map<InodeId, nat>
    var parentOfUninstantiated: map<InodeId, InodeId>
    ghost var handles: multiset<InodeId>
    ghost var queued: multiset<InodeId>
    ghost var temps: multiset<InodeId>

    ghost function Value(): State
      reads this
    {
      State(inodes, inodeRefcounts, lookupCounts, parentOfUninstantiated, handles, queued, temps)
    }

    method AddInodeRef_(i: InodeId)
      modifies this`inodeRefcounts
      ensures Value() == AddInodeRef(old(Value()), i)
    {
      var refs := (if i in inodeRefcounts then inodeRefcounts[i] else 0) + 1;
      inodeRefcounts := inodeRefcounts[i := refs];
    }

    /** addRef_: the count was not zero. */
    method AddRef_(i: InodeId)
      requires Inv(Value()) && i in inodes
      modifies this`inodeRefcounts
      ensures Value() == AddRef(old(Value()), i)
    {
      if i <= RESERVED_END {
        return;
      }
      assert Counted(Value(), i);
      AddInodeRef_(i);
      assert inodeRefcounts[i] > 1;
    }

    /** delRef, up the chain of parents for as long as references run out. */
    method DelRef_(i: InodeId)
      requires Inv(Value()) && i in temps
      modifies this
      ensures Inv(Value()) && Value() == DelRef(old(Value()), i)
      decreases |inodes.Keys|
    {
      ghost var before := Value();
      HeldIsLive(before, i);
      DelRefKeepsInv(before, i);
      DelRefCases(before, i);
      hide Inv, DelRef, Gone, Drop;
      if i <= RESERVED_END || inodeRefcounts[i] != 1 {
        Decrement_(i);
        return;
      }
      GoneKeepsInv(before, i);
      GoneIsFewer(before, i);
      var p := Uninstantiate_(i);
      if p != i {
        DelRef_(p);
      }
    }

    /** One reference fewer; permanent inodes are not counted. */
    method Decrement_(i: InodeId)
      modifies this
      ensures Value() == Drop(old(Value()), i)
    {
      temps := temps - multiset{i};
      if i > RESERVED_END && i in inodeRefcounts {
        inodeRefcounts := inodeRefcounts[i := inodeRefcounts[i] - 1];
      }
    }

    /** The inode is unlisted; its reference to its parent is to be given back. */
    method Uninstantiate_(i: InodeId) returns (p: InodeId)
      requires i in inodes
      modifies this
      ensures p == old(inodes[i])
      ensures Value() == Gone(old(Value()), i)
    {
      p := inodes[i];
      ghost var gone := Gone(Value(), i);
      var waiting := WithoutChildren(parentOfUninstantiated[i := p], i);
      assert gone == State(inodes - {i}, inodeRefcounts - {i}, lookupCounts, waiting, handles, queued, gone.temps);
      hide WithoutChildren, Gone;
      parentOfUninstantiated := waiting;
      inodes := inodes - {i};
      inodeRefcounts := inodeRefcounts - {i};
      temps := gone.temps;
    }

    method IncrementLookupCount_(i: InodeId)
      requires Inv(Value())
      modifies this`inodeRefcounts, this`lookupCounts
      ensures Inv(Value()) && Value() == IncrementLookup(old(Value()), i)
    {
      LookupKeepsInv(Value(), i);
      hide Inv;
      if i in lookupCounts {
        lookupCounts := lookupCounts[i := lookupCounts[i] + 1];
      } else {
        lookupCounts := lookupCounts[i := 1];
        if i > RESERVED_END && i in inodes {
          AddInodeRef_(i);
        }
      }
    }

    /** setParent_: the old parent is there. */
    method SetParent_(i: InodeId, p: InodeId)
      requires Inv(Value()) && Enabled(Value(), SetParent(i, p))
      modifies this
      ensures Inv(Value()) && Value() == Reparent(old(Value()), i, p)
    {
      ghost var before := Value();
      assert LiveParent(inodes, i);
      hide Inv, DelRef, Moved;
      MovedKeepsInv(before, i, p);
      MovedOwes(before, i, p);
      MoveKeepsInv(before, i, p);
      var oldParent := Attach_(i, p);
      DelRef_(oldParent);
    }

    /** A child moves; the reference that its old parent had is to be given back. */
    method Attach_(i: InodeId, p: InodeId) returns (oldParent: InodeId)
      requires Inv(Value()) && i in inodes && p in inodes && p != i && LiveParent(inodes, i)
      modifies this
      ensures oldParent == old(inodes[i]) && Value() == Moved(old(Value()), i, p)
    {
      hide Inv;
      AddRef_(p);
      oldParent := inodes[i];
      assert oldParent in inodes;
      inodes := inodes[i := p];
      temps := temps + multiset{oldParent};
    }

    /** orphan_: the old parent is there. */
    method Orphan_(i: InodeId)
      requires Inv(Value()) && !Permanent(i) && i in inodes
      modifies this
      ensures Inv(Value()) && Value() == MakeOrphan(old(Value()), i)
    {
      ghost var before := Value();
      if inodes[i] == i {
        return;
      }
      MovedKeepsInv(before, i, i);
      MovedOwes(before, i, i);
      MoveKeepsInv(before, i, i);
      assert LiveParent(inodes, i);
      hide Inv;
      var oldParent := inodes[i];
      assert oldParent in inodes;
      inodes := inodes[i := i];
      temps := temps + multiset{oldParent};
      DelRef_(oldParent);
    }

    /** shouldForget: with a lookup that was counted, or with a reference to spare. */
    method ShouldForget(i: InodeId, count: nat) returns (forgotten: bool)
      requires Inv(Value()) && count < UINT64_RANGE && (i in lookupCounts ==> lookupCounts[i] < UINT64_RANGE)
      requires i in lookupCounts || i !in inodes || Permanent(i) || inodeRefcounts[i] > Holders(Value(), i)
      modifies this
      ensures Inv(Value()) && Value() == ForgetLookups(old(Value()), i, count)
      ensures forgotten == Forgets(old(Value()), i, count)
    {
      if i == INODE_ID_ROOT || i == INODE_ID_API {
        return false;
      }
      ghost var before := Value();
      if i in inodes {
        GiveBackable(before, i);
      }
      hide Inv, DelRef, Holders, ForgetLookups;
      ForgetCases(before, i, count);
      forgotten := DropLookups_(i, count);
      if forgotten && i in inodes {
        temps := temps + multiset{i};
        DelRef_(i);
      }
    }

    /** The lookups of an inode go down; true if none is left. */
    method DropLookups_(i: InodeId, count: nat) returns (none: bool)
      requires count < UINT64_RANGE && (i in lookupCounts ==> lookupCounts[i] < UINT64_RANGE)
      requires i != INODE_ID_ROOT && i != INODE_ID_API
      modifies this`lookupCounts
      ensures none == Forgets(old(Value()), i, count)
      ensures lookupCounts == if none then old(lookupCounts) - {i}
                              else old(lookupCounts)[i := (old(lookupCounts)[i] - count) % UINT64_RANGE]
    {
      ghost var before := lookupCounts;
      if i in lookupCounts {
        var lookupCount := (lookupCounts[i] - count) % UINT64_RANGE;
        lookupCounts := lookupCounts[i := lookupCount];
        if lookupCount != 0 {
          return false;
        }
        lookupCounts := lookupCounts - {i};
      }
      assert lookupCounts == before - {i};
      none := true;
    }
  }

  /** Whether no lookup is left after a forget. */
  predicate Forgets(s: State, i: InodeId, n: nat) {
    i != INODE_ID_ROOT && i != INODE_ID_API && (i in s.lookups ==> n == s.lookups[i])
  }

  lemma ForgetCases(s: State, i: InodeId, n: nat)
    requires Inv(s) && i != INODE_ID_ROOT && i != INODE_ID_API
    requires n < UINT64_RANGE && (i in s.lookups ==> s.lookups[i] < UINT64_RANGE)
    ensures Forgets(s, i, n) && i in s.parent ==>
              ForgetLookups(s, i, n) == DelRef(WithTemp(s.(lookups := s.lookups - {i}), i), i)
    ensures Forgets(s, i, n) && i !in s.parent ==>
              ForgetLookups(s, i, n) == s.(lookups := s.lookups - {i}) && Inv(ForgetLookups(s, i, n))
    ensures !Forgets(s, i, n) ==>
              && i in s.lookups && (s.lookups[i] - n) % UINT64_RANGE != 0
              && ForgetLookups(s, i, n) == s.(lookups := s.lookups[i := (s.lookups[i] - n) % UINT64_RANGE])
              && Inv(ForgetLookups(s, i, n))
  {
    hide Inv, DelRef, Minus64;
    if i in s.lookups {
      Minus64IsMod(s.lookups[i], n);
      ForgetKeepsInv(s, i, n);
    } else {
      assert s.lookups - {i} == s.lookups;
    }
  }

  lemma Minus64IsMod(a: nat, b: nat)
    requires a < UINT64_RANGE && b < UINT64_RANGE
    ensures Minus64(a, b) == (a - b) % UINT64_RANGE && (a != b ==> Minus64(a, b) != 0)
  {
  }

  /** What a forget gives back is the lookup's reference, or one to spare. */
  lemma GiveBackable(s: State, i: InodeId)
    requires Inv(s) && i in s.parent && (i in s.lookups || Permanent(i) || s.refs[i] > Holders(s, i))
    ensures Inv(WithTemp(s.(lookups := s.lookups - {i}), i))
  {
    var t := WithTemp(s.(lookups := s.lookups - {i}), i);
    if i in s.lookups {
      FewerLookups(s, t, i);
    } else {
      assert s.lookups - {i} == s.lookups;
      if Permanent(i) {
        HoldKeepsInv(s, t, i);
      } else {
        SpareReference(s, i);
      }
    }
  }
}
