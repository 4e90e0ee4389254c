/** The queue of dirty inodes of one workspace (daemon/flusher.go, daemon/inode.go). */
module DirtyQueue {
  import opened Basics

  /** A list element, with an identity of its own. */
  datatype Element = Element(id: nat, inode: InodeId)

  /** The element at the front that is being flushed, without the flusher lock; `saved` tells
      whether the flush has stored the inode's content yet. */
  datatype Flush = Flush(element: Element, saved: bool)

  /** queue     the list, front first
      dirty     the inodes' dirtyElement, where it is not nil
      unsaved   the inodes with changes that are not in the datastore
      refs      the references that the queue has taken and not given back
      leaked    those of them that nothing will give back */
  datatype State = State(
    queue: seq<Element>,
    dirty: map<InodeId, nat>,
    flushing: Option<Flush>,
    unsaved: set<InodeId>,
    refs: multiset<InodeId>,
    leaked: multiset<InodeId>,
    next: nat)

  function Start(): State {
    State([], map[], None, {}, multiset{}, multiset{}, 0)
  }

  function Remove(q: seq<Element>, id: nat): seq<Element> {
    if q == [] then [] else if q[0].id == id then q[1..] else [q[0]] + Remove(q[1..], id)
  }

  /** dirty_ and queueDirtyInode_: a new element unless the inode has one. */
  function Dirty(s: State, i: InodeId): State {
    if i in s.dirty then s
    else s.(queue := s.queue + [Element(s.next, i)], dirty := s.dirty[i := s.next],
            refs := s.refs + multiset{i}, next := s.next + 1)
  }

  /** moveToBackOfQueue_. */
  function MoveToBack(s: State, i: InodeId): State {
    if i in s.dirty then s.(queue := Remove(s.queue, s.dirty[i]) + [Element(s.dirty[i], i)])
    else Dirty(s, i)
  }

  function Less(refs: multiset<InodeId>, i: InodeId): multiset<InodeId> {
    refs - multiset{i}
  }

  datatype Step =
    | Modify(i: InodeId)
    | Touch(i: InodeId)
    | Requeue(i: InodeId)
    | StartFlush
    | Save
    | Finish(success: bool)

  predicate Enabled(s: State, step: Step) {
    match step
    case Modify(_) => true
    case Touch(_) => true
    case Requeue(_) => s.flushing.None?
    case StartFlush => s.flushing.None? && s.queue != []
    case Save => s.flushing.Some?
    case Finish(_) => s.flushing.Some?
  }

  function Do(s: State, step: Step): State
    requires Enabled(s, step)
  {
    match step
    case Modify(i) => Dirty(s, i).(unsaved := s.unsaved + {i})
    case Touch(i) => Dirty(s, i)
    case Requeue(i) => MoveToBack(s, i)
    case StartFlush =>
      var e := s.queue[0];
      s.(dirty := s.dirty - {e.inode}, flushing := Some(Flush(e, false)), refs := s.refs + multiset{e.inode})
    case Save =>
      var f := s.flushing.value;
      s.(unsaved := s.unsaved - {f.element.inode}, flushing := Some(f.(saved := true)))
    case Finish(success) =>
      var e := s.flushing.value.element;
      var done := s.(flushing := None, refs := Less(s.refs, e.inode));
      if success then done.(queue := Remove(s.queue, e.id), refs := Less(done.refs, e.inode))
      // The flush failed: the element is the inode's again, unless the inode has another by now.
      else if e.inode !in s.dirty then done.(dirty := s.dirty[e.inode := e.id])
      else done.(queue := Remove(s.queue, e.id), leaked := s.leaked + multiset{e.inode})
  }

  // ---------------------------------------------------------------------------------------------
  // What every step keeps

  function Inodes(q: seq<Element>): seq<InodeId> {
    seq(|q|, k requires 0 <= k < |q| => q[k].inode)
  }

  predicate Distinct(q: seq<Element>) {
    forall a, b :: 0 <= a < b < |q| ==> q[a].id != q[b].id
  }

  predicate InFlight(s: State, i: InodeId) {
    s.flushing.Some? && s.flushing.value.element.inode == i
  }

  /** The element is its inode's, or it is the one at the front that is being flushed. */
  predicate Belongs(s: State, e: Element) {
    && e.id < s.next
    && ((e.inode in s.dirty && s.dirty[e.inode] == e.id) || (s.flushing.Some? && s.flushing.value.element == e))
  }

  ghost predicate Listed(s: State) {
    && Distinct(s.queue)
    && (forall e :: e in s.queue ==> Belongs(s, e))
    && (forall i :: i in s.dirty ==> Element(s.dirty[i], i) in s.queue)
    && (s.flushing.Some? ==>
          && s.queue != [] && s.queue[0] == s.flushing.value.element
          && (s.queue[0].inode in s.dirty ==> s.dirty[s.queue[0].inode] != s.queue[0].id))
  }

  /** An inode with unsaved changes is on the queue in its own right, or its flush is yet to save. */
  ghost predicate NothingLost(s: State) {
    forall i :: i in s.unsaved ==> i in s.dirty || (InFlight(s, i) && !s.flushing.value.saved)
  }

  /** One reference for each element, one for the flush, and the leaked ones. */
  ghost predicate RefsExact(s: State) {
    forall i :: s.refs[i] == multiset(Inodes(s.queue))[i] + s.leaked[i] + if InFlight(s, i) then 1 else 0
  }

  ghost predicate Inv(s: State) {
    Listed(s) && NothingLost(s) && RefsExact(s)
  }

  lemma InodesConcat(p: seq<Element>, q: seq<Element>)
    ensures multiset(Inodes(p + q)) == multiset(Inodes(p)) + multiset(Inodes(q))
  {
    assert Inodes(p + q) == Inodes(p) + Inodes(q);
  }

  lemma {:induction false} RemoveTakes(q: seq<Element>, e: Element)
    requires Distinct(q) && e in q
    ensures Distinct(Remove(q, e.id))
    ensures forall x :: x in Remove(q, e.id) <==> x in q && x != e
    ensures forall x :: x in Remove(q, e.id) ==> x.id != e.id
  {
    var rest := Remove(q[1..], e.id);
    assert q == [q[0]] + q[1..];
    if q[0].id == e.id {
      assert q[0] == e;
    } else {
      RemoveTakes(q[1..], e);
      forall k | 0 <= k < |rest| ensures rest[k].id != q[0].id {
        assert rest[k] in q[1..];
      }
      forall x | x in q && x != e ensures x in [q[0]] + rest {
      }
    }
  }

  lemma {:induction false} RemoveCounts(q: seq<Element>, e: Element)
    requires Distinct(q) && e in q
    ensures multiset(Inodes(q)) == multiset(Inodes(Remove(q, e.id))) + multiset{e.inode}
  {
    assert q == [q[0]] + q[1..];
    InodesConcat([q[0]], q[1..]);
    assert Inodes([q[0]]) == [q[0].inode];
    if q[0].id == e.id {
      assert q[0] == e;
    } else {
      RemoveCounts(q[1..], e);
      InodesConcat([q[0]], Remove(q[1..], e.id));
    }
  }

  lemma DirtyKeepsInv(s: State, i: InodeId)
    requires Inv(s)
    ensures Inv(Dirty(s, i)) && i in Dirty(s, i).dirty
  {
    if i !in s.dirty {
      var e := Element(s.next, i);
      InodesConcat(s.queue, [e]);
      assert Inodes([e]) == [i];
      var t := Dirty(s, i);
      forall x | x in t.queue ensures Belongs(t, x) {
        assert x == e || x in s.queue;
      }
      forall a | 0 <= a < |s.queue| ensures s.queue[a].id != e.id {
        assert Belongs(s, s.queue[a]);
      }
    }
  }

  lemma MoveToBackKeepsInv(s: State, i: InodeId)
    requires Inv(s) && s.flushing.None?
    ensures Inv(MoveToBack(s, i)) && i in MoveToBack(s, i).dirty
  {
    if i in s.dirty {
      var e := Element(s.dirty[i], i);
      RemoveTakes(s.queue, e);
      RemoveCounts(s.queue, e);
      var rest := Remove(s.queue, e.id);
      InodesConcat(rest, [e]);
      assert Inodes([e]) == [i];
      var t := MoveToBack(s, i);
      forall x | x in t.queue ensures Belongs(t, x) {
        assert Belongs(s, x);
      }
      forall a | 0 <= a < |rest| ensures rest[a].id != e.id {
        assert rest[a] in rest;
      }
      forall j | j in t.dirty ensures Element(t.dirty[j], j) in t.queue {
        assert Element(s.dirty[j], j) in rest || j == i;
        assert t.queue[|rest|] == e;
      }
    } else {
      DirtyKeepsInv(s, i);
    }
  }

  lemma StartKeepsInv(s: State)
    requires Inv(s) && Enabled(s, StartFlush)
    ensures Inv(Do(s, StartFlush))
  {
    var e := s.queue[0];
    var t := Do(s, StartFlush);
    assert Belongs(s, e);
    forall x | x in t.queue ensures Belongs(t, x) {
      assert Belongs(s, x);
      var a :| 0 <= a < |s.queue| && s.queue[a] == x;
    }
  }

  /** The flush ends as a success without having saved what nobody else will. */
  predicate Loses(s: State, step: Step)
    requires Enabled(s, step)
  {
    step == Finish(true) && !s.flushing.value.saved
    && s.flushing.value.element.inode in s.unsaved && s.flushing.value.element.inode !in s.dirty
  }

  lemma FinishKeepsListed(s: State, success: bool)
    requires Listed(s) && s.flushing.Some?
    ensures Listed(Do(s, Finish(success)))
  {
    var e := s.flushing.value.element;
    var t := Do(s, Finish(success));
    RemoveTakes(s.queue, e);
    forall x | x in t.queue ensures Belongs(t, x) {
      assert Belongs(s, x);
    }
  }

  lemma FinishKeepsRefs(s: State, success: bool)
    requires Listed(s) && RefsExact(s) && s.flushing.Some?
    ensures RefsExact(Do(s, Finish(success)))
  {
    var e := s.flushing.value.element;
    RemoveCounts(s.queue, e);
    var t := Do(s, Finish(success));
    forall i ensures t.refs[i] == multiset(Inodes(t.queue))[i] + t.leaked[i] + if InFlight(t, i) then 1 else 0 {
      assert s.refs[i] == multiset(Inodes(s.queue))[i] + s.leaked[i] + if InFlight(s, i) then 1 else 0;
    }
  }

  /** Every step but a flush that saves nothing keeps all changes on their way to the datastore. */
  lemma StepKeepsInvIff(s: State, step: Step)
    requires Inv(s) && Enabled(s, step)
    ensures Inv(Do(s, step)) <==> !Loses(s, step)
  {
    match step
    case Modify(i) => DirtyKeepsInv(s, i); UnsavedIsApart(Dirty(s, i), i);
    case Touch(i) => DirtyKeepsInv(s, i);
    case Requeue(i) => MoveToBackKeepsInv(s, i);
    case StartFlush => StartKeepsInv(s);
    case Save => SaveKeepsInv(s);
    case Finish(success) =>
      FinishKeepsListed(s, success);
      FinishKeepsRefs(s, success);
  }

  lemma UnsavedIsApart(s: State, i: InodeId)
    requires Inv(s) && i in s.dirty
    ensures Inv(s.(unsaved := s.unsaved + {i}))
  {
    var t := s.(unsaved := s.unsaved + {i});
    assert forall x :: Belongs(s, x) ==> Belongs(t, x);
    assert forall j :: InFlight(t, j) == InFlight(s, j);
  }

  lemma SaveKeepsInv(s: State)
    requires Inv(s) && s.flushing.Some?
    ensures Inv(Do(s, Save))
  {
    var t := Do(s, Save);
    assert forall x :: Belongs(s, x) ==> Belongs(t, x);
    assert forall j :: InFlight(t, j) == InFlight(s, j);
  }

  // ---------------------------------------------------------------------------------------------
  // Runs

  /** A change waits from the modification to the save of a flush of its own inode, and nothing else
      takes it away; every touch queues the inode, and only the start of its flush takes it off. */
  lemma ChangesWaitForTheirSave(s: State, step: Step, i: InodeId)
    requires Enabled(s, step)
    ensures i in Do(s, step).unsaved <==> step == Modify(i) || (i in s.unsaved && !(step.Save? && InFlight(s, i)))
    ensures step == Modify(i) || step == Touch(i) || step == Requeue(i) ==> i in Do(s, step).dirty
    ensures i in s.dirty && i !in Do(s, step).dirty ==> step.StartFlush? && s.queue[0].inode == i
    ensures InFlight(Do(s, step), i) <==>
      (step.StartFlush? && s.queue[0].inode == i) || (InFlight(s, i) && !step.StartFlush? && !step.Finish?)
  {
    hide Remove, Less;
  }

  predicate Possible(s: State, steps: seq<Step>)
    decreases |steps|
  {
    steps == [] || (Enabled(s, steps[0]) && Possible(Do(s, steps[0]), steps[1..]))
  }

  function After(s: State, steps: seq<Step>): State
    requires Possible(s, steps)
    decreases |steps|
  {
    if steps == [] then s else After(Do(s, steps[0]), steps[1..])
  }

  /** No flush is skipped: none succeeds before it has saved. */
  predicate NoneSkipped(s: State, steps: seq<Step>)
    requires Possible(s, steps)
    decreases |steps|
  {
    steps == []
    || ((steps[0] == Finish(true) ==> s.flushing.value.saved) && NoneSkipped(Do(s, steps[0]), steps[1..]))
  }

  lemma {:induction false} RunKeepsInv(s: State, steps: seq<Step>)
    requires Inv(s) && Possible(s, steps) && NoneSkipped(s, steps)
    ensures Inv(After(s, steps))
    decreases |steps|
  {
    if steps != [] {
      StepKeepsInvIff(s, steps[0]);
      RunKeepsInv(Do(s, steps[0]), steps[1..]);
    }
  }

  /** However modifications, flushes and failures interleave: unsaved changes have an element on the
      queue; an inode has at most one besides the one being flushed; and once the queue is empty all
      changes are saved, and only failed flushes have left references behind. */
  lemma NoLostModification(steps: seq<Step>)
    requires Possible(Start(), steps) && NoneSkipped(Start(), steps)
    ensures var s := After(Start(), steps);
      && (forall i :: i in s.unsaved ==> exists e :: e in s.queue && e.inode == i)
      && (forall a, b :: 0 <= a < b < |s.queue| && s.queue[a].inode == s.queue[b].inode ==>
            a == 0 && s.flushing.Some? && s.flushing.value.element == s.queue[0])
      && (s.queue == [] ==> s.unsaved == {} && s.flushing.None? && s.refs == s.leaked)
  {
    RunKeepsInv(Start(), steps);
    var s := After(Start(), steps);
    forall i | i in s.unsaved ensures exists e :: e in s.queue && e.inode == i {
      if i in s.dirty {
        assert Element(s.dirty[i], i) in s.queue;
      } else {
        assert s.queue[0] in s.queue;
      }
    }
    forall a, b | 0 <= a < b < |s.queue| && s.queue[a].inode == s.queue[b].inode
      ensures a == 0 && s.flushing.Some? && s.flushing.value.element == s.queue[0]
    {
      assert Belongs(s, s.queue[a]) && Belongs(s, s.queue[b]);
    }
    if s.queue == [] {
      assert s.unsaved == {} by {
        if i :| i in s.unsaved {
          assert false;
        }
      }
      assert s.refs == s.leaked;
    }
  }

  // ---------------------------------------------------------------------------------------------
  // Sorting

  /** The directory tree while a queue is sorted.  Workspace roots and orphans are tops. */
  datatype Tree = Tree(parent: InodeId -> InodeId, top: InodeId -> bool, depth: InodeId -> nat) {
    ghost predicate Valid() {
      forall i :: !top(i) ==> depth(parent(i)) < depth(i)
    }
  }

  /** requeue_: the inode and all its ancestors go to the back, one after the other. */
  ghost function RequeueUp(s: State, tree: Tree, i: InodeId): State
    requires tree.Valid()
    decreases tree.depth(i)
  {
    var t := MoveToBack(s, i);
    if tree.top(i) then t else RequeueUp(t, tree, tree.parent(i))
  }

  ghost function RequeueAll(s: State, tree: Tree, todo: seq<InodeId>): State
    requires tree.Valid()
    decreases |todo|
  {
    if todo == [] then s else RequeueAll(RequeueUp(s, tree, todo[0]), tree, todo[1..])
  }

  predicate Before(q: seq<Element>, i: InodeId, j: InodeId) {
    exists a, b :: 0 <= a < b < |q| && q[a].inode == i && q[b].inode == j
  }

  /** The inode will be flushed before its parent. */
  ghost predicate Ordered(q: seq<Element>, tree: Tree, i: InodeId) {
    !tree.top(i) ==> Before(q, i, tree.parent(i))
  }

  /** Among inodes other than the removed one the order stays. */
  lemma {:induction false} RemoveKeepsOrder(q: seq<Element>, id: nat, a: nat, b: nat) returns (c: nat, d: nat)
    requires a < b < |q| && q[a].id != id && q[b].id != id
    ensures c < d < |Remove(q, id)| && Remove(q, id)[c] == q[a] && Remove(q, id)[d] == q[b]
    decreases |q|
  {
    if q[0].id == id {
      c, d := a - 1, b - 1;
    } else if a == 0 {
      d := RemoveKeepsPlace(q[1..], id, b - 1);
      c, d := 0, d + 1;
    } else {
      c, d := RemoveKeepsOrder(q[1..], id, a - 1, b - 1);
      c, d := c + 1, d + 1;
    }
  }

  lemma {:induction false} RemoveKeepsPlace(q: seq<Element>, id: nat, b: nat) returns (d: nat)
    requires b < |q| && q[b].id != id
    ensures d < |Remove(q, id)| && Remove(q, id)[d] == q[b]
    decreases |q|
  {
    if q[0].id == id {
      d := b - 1;
    } else if b == 0 {
      d := 0;
    } else {
      d := RemoveKeepsPlace(q[1..], id, b - 1);
      d := d + 1;
    }
  }

  /** Moving an inode to the back puts it after all others and leaves their order alone. */
  lemma MoveToBackOrders(s: State, i: InodeId, x: InodeId, y: InodeId)
    requires Inv(s) && s.flushing.None? && x != i
    ensures x in s.dirty ==> Before(MoveToBack(s, i).queue, x, i)
    ensures Before(s.queue, x, y) ==> Before(MoveToBack(s, i).queue, x, y)
  {
    var q := MoveToBack(s, i).queue;
    assert q[|q| - 1].inode == i;
    if x in s.dirty {
      var a := PlaceOf(s, x);
      hide Inv, MoveToBack;
      var c := KeepsPlace(s, i, a);
      assert q[c].inode == x;
    }
    if Before(s.queue, x, y) {
      var a, b :| 0 <= a < b < |s.queue| && s.queue[a].inode == x && s.queue[b].inode == y;
      hide Inv, MoveToBack;
      if y == i {
        var c := KeepsPlace(s, i, a);
        assert q[c].inode == x;
      } else {
        var c, d := KeepsPlaces(s, i, a, b);
        assert q[c].inode == x && q[d].inode == y;
      }
    }
  }

  lemma PlaceOf(s: State, x: InodeId) returns (a: nat)
    requires Inv(s) && x in s.dirty
    ensures a < |s.queue| && s.queue[a] == Element(s.dirty[x], x)
  {
    a :| 0 <= a < |s.queue| && s.queue[a] == Element(s.dirty[x], x);
  }

  /** Another inode's element is not the one that moves. */
  lemma OtherElement(s: State, i: InodeId, a: nat)
    requires Inv(s) && s.flushing.None? && i in s.dirty && a < |s.queue| && s.queue[a].inode != i
    ensures s.queue[a].id != s.dirty[i]
  {
    var k := PlaceOf(s, i);
    assert Belongs(s, s.queue[a]);
  }

  lemma KeepsPlace(s: State, i: InodeId, a: nat) returns (c: nat)
    requires Inv(s) && s.flushing.None? && a < |s.queue| && s.queue[a].inode != i
    ensures var q := MoveToBack(s, i).queue; c < |q| - 1 && q[c] == s.queue[a]
  {
    hide Inv;
    if i in s.dirty {
      OtherElement(s, i, a);
      c := RemoveKeepsPlace(s.queue, s.dirty[i], a);
    } else {
      c := a;
    }
  }

  lemma KeepsPlaces(s: State, i: InodeId, a: nat, b: nat) returns (c: nat, d: nat)
    requires Inv(s) && s.flushing.None? && a < b < |s.queue| && s.queue[a].inode != i && s.queue[b].inode != i
    ensures var q := MoveToBack(s, i).queue; c < d < |q| && q[c] == s.queue[a] && q[d] == s.queue[b]
  {
    hide Inv;
    if i in s.dirty {
      OtherElement(s, i, a);
      OtherElement(s, i, b);
      c, d := RemoveKeepsOrder(s.queue, s.dirty[i], a, b);
    } else {
      c, d := a, b;
    }
  }

  /** All of m are queued and in order, but perhaps for i itself and the children of i. */
  ghost predicate OrderedBut(s: State, tree: Tree, m: set<InodeId>, i: InodeId) {
    forall x :: x in m ==>
      x in s.dirty && (x == i || (!tree.top(x) && tree.parent(x) == i) || Ordered(s.queue, tree, x))
  }

  ghost predicate AllOrdered(s: State, tree: Tree, m: set<InodeId>) {
    forall x :: x in m ==> x in s.dirty && Ordered(s.queue, tree, x)
  }

  /** Moving an inode to the back leaves only itself to be brought before its parent. */
  lemma MovedKeepsOrder(s: State, tree: Tree, i: InodeId, m: set<InodeId>)
    requires Inv(s) && s.flushing.None? && OrderedBut(s, tree, m, i)
    ensures var t := MoveToBack(s, i);
      && t.flushing.None? && t.unsaved == s.unsaved && t.dirty.Keys == s.dirty.Keys + {i}
      && (tree.top(i) ==> AllOrdered(t, tree, m + {i}))
      && (!tree.top(i) ==> OrderedBut(t, tree, m + {i}, tree.parent(i)))
  {
    var t := MoveToBack(s, i);
    assert t.flushing.None? && t.unsaved == s.unsaved && t.dirty.Keys == s.dirty.Keys + {i};
    hide Inv, MoveToBack;
    forall x | x in m && x != i ensures Ordered(t.queue, tree, x) {
      if !tree.top(x) {
        MoveToBackOrders(s, i, x, tree.parent(x));
      }
    }
  }

  lemma ParentIsHigher(tree: Tree, i: InodeId)
    requires tree.Valid() && !tree.top(i)
    ensures tree.depth(tree.parent(i)) < tree.depth(i)
  {
  }

  lemma {:induction false} RequeueOrders(s: State, tree: Tree, i: InodeId, m: set<InodeId>) returns (n: set<InodeId>)
    requires tree.Valid() && Inv(s) && s.flushing.None? && OrderedBut(s, tree, m, i)
    ensures var t := RequeueUp(s, tree, i);
      && Inv(t) && t.flushing.None? && t.unsaved == s.unsaved
      && m + {i} <= n && AllOrdered(t, tree, n)
      && t.dirty.Keys <= s.dirty.Keys + n && s.dirty.Keys <= t.dirty.Keys
    decreases tree.depth(i)
  {
    hide Inv, OrderedBut, AllOrdered, MoveToBack, Tree.Valid;
    var t := MoveToBack(s, i);
    MoveToBackKeepsInv(s, i);
    MovedKeepsOrder(s, tree, i, m);
    if tree.top(i) {
      n := m + {i};
    } else {
      ParentIsHigher(tree, i);
      n := RequeueOrders(t, tree, tree.parent(i), m + {i});
    }
  }

  lemma {:induction false} RequeueAllOrders(s: State, tree: Tree, todo: seq<InodeId>, m: set<InodeId>)
    returns (n: set<InodeId>)
    requires tree.Valid() && Inv(s) && s.flushing.None? && AllOrdered(s, tree, m)
    ensures var t := RequeueAll(s, tree, todo);
      && Inv(t) && t.flushing.None? && t.unsaved == s.unsaved
      && m <= n && AllOrdered(t, tree, n) && (forall i :: i in todo ==> i in n)
      && t.dirty.Keys <= s.dirty.Keys + n && s.dirty.Keys <= t.dirty.Keys
    decreases |todo|
  {
    if todo == [] {
      n := m;
    } else {
      n := RequeueOrders(s, tree, todo[0], m);
      n := RequeueAllOrders(RequeueUp(s, tree, todo[0]), tree, todo[1..], n);
    }
  }

  /** sortTopologically_: afterwards every inode on the queue comes before its parent, which is on the
      queue too; only those left out of the sort, orphans and listings, may be anywhere. */
  lemma SortsTopologically(s: State, tree: Tree, todo: seq<InodeId>)
    requires tree.Valid() && Inv(s) && s.flushing.None?
    ensures var t := RequeueAll(s, tree, todo);
      && Inv(t) && t.flushing.None? && t.unsaved == s.unsaved
      && (forall i :: i in s.dirty ==> i in t.dirty)
      && (forall i :: i in t.dirty && (i in todo || i !in s.dirty) ==> Ordered(t.queue, tree, i))
  {
    var n := RequeueAllOrders(s, tree, todo, {});
  }

  // ---------------------------------------------------------------------------------------------
  // In place

  class DirtyQueueImpl {
    var l: seq<Element>
    var dirtyElement: map<InodeId, nat>
    var next: nat
    ghost var flushing: Option<Flush>
    ghost var unsaved: set<InodeId>
    ghost var refs: multiset<InodeId>
    ghost var leaked: multiset<InodeId>

    ghost function Value(): State
      reads this
    {
      State(l, dirtyElement, flushing, unsaved, refs, leaked, next)
    }

    constructor ()
      ensures Value() == Start()
    {
      l, dirtyElement, next := [], map[], 0;
      flushing, unsaved, refs, leaked := None, {}, multiset{}, multiset{};
    }

    /** dirty_. */
    method Dirty_(i: InodeId)
      modifies this
      ensures Value() == Dirty(old(Value()), i)
    {
      if i !in dirtyElement {
        l := l + [Element(next, i)];
        dirtyElement := dirtyElement[i := next];
        next := next + 1;
        refs := refs + multiset{i};
      }
    }

    /** moveToBackOfQueue_. */
    method MoveToBackOfQueue_(i: InodeId)
      modifies this
      ensures Value() == MoveToBack(old(Value()), i)
    {
      if i in dirtyElement {
        var id := dirtyElement[i];
        l := Remove(l, id) + [Element(id, i)];
      } else {
        Dirty_(i);
      }
    }

    /** requeue_. */
    method Requeue_(inode: InodeId, tree: Tree)
      requires tree.Valid()
      modifies this
      ensures Value() == RequeueUp(old(Value()), tree, inode)
    {
      var i := inode;
      MoveToBackOfQueue_(i);
      while !tree.top(i)
        invariant RequeueUp(old(Value()), tree, inode)
               == if tree.top(i) then Value() else RequeueUp(Value(), tree, tree.parent(i))
        decreases tree.depth(i)
      {
        i := tree.parent(i);
        MoveToBackOfQueue_(i);
      }
    }

    /** sortTopologically_: orphans and listings are skipped. */
    method SortTopologically_(tree: Tree, skip: InodeId -> bool)
      requires tree.Valid() && Inv(Value()) && flushing.None?
      modifies this
      ensures Inv(Value()) && flushing.None? && unsaved == old(unsaved)
      ensures forall i :: i in old(dirtyElement) ==> i in dirtyElement
      ensures forall i :: i in dirtyElement && (i !in old(dirtyElement) || !skip(i)) ==> Ordered(l, tree, i)
    {
      ghost var before := Value();
      var dirtyInodes: seq<InodeId> := [];
      for k := 0 to |l|
        invariant Value() == before
        invariant forall i :: i in dirtyInodes <==> exists e :: e in l[..k] && e.inode == i && !skip(i)
      {
        assert l[..k + 1] == l[..k] + [l[k]];
        if !skip(l[k].inode) {
          dirtyInodes := dirtyInodes + [l[k].inode];
        }
      }
      assert l[..|l|] == l;
      SortsTopologically(before, tree, dirtyInodes);
      ghost var queued := dirtyInodes;
      forall i | i in before.dirty && !skip(i) ensures i in queued {
        assert Element(before.dirty[i], i) in before.queue;
      }
      hide Inv, Ordered;
      for k := 0 to |dirtyInodes|
        invariant RequeueAll(Value(), tree, dirtyInodes[k..]) == RequeueAll(before, tree, queued)
      {
        assert dirtyInodes[k..][1..] == dirtyInodes[k + 1..];
        Requeue_(dirtyInodes[k], tree);
      }
    }

    /** The first part of flushCandidate_: the element is taken off the inode before its flush. */
    method StartFlush_() returns (candidate: Element)
      requires Inv(Value()) && flushing.None? && l != []
      modifies this
      ensures Inv(Value()) && Value() == Do(old(Value()), StartFlush) && candidate == old(l)[0]
    {
      StartKeepsInv(Value());
      candidate := l[0];
      refs := refs + multiset{candidate.inode};
      dirtyElement := dirtyElement - {candidate.inode};
      flushing := Some(Flush(candidate, false));
    }

    /** The rest of flushCandidate_, and the removal in flushQueue_; true if the element goes. */
    method FinishFlush_(candidate: Element, flushSuccess: bool) returns (removed: bool)
      requires Inv(Value()) && flushing.Some? && flushing.value.element == candidate
      modifies this
      ensures Value() == Do(old(Value()), Finish(flushSuccess))
      ensures Inv(Value()) <==> !Loses(old(Value()), Finish(flushSuccess))
      ensures removed <==> flushSuccess || candidate.inode in old(dirtyElement)
    {
      StepKeepsInvIff(Value(), Finish(flushSuccess));
      hide Inv, Do;
      if flushSuccess {
        Flushed_(candidate);
        return true;
      }
      removed := MarkUnclean_(candidate);
    }

    method Flushed_(candidate: Element)
      requires flushing.Some? && flushing.value.element == candidate
      modifies this
      ensures Value() == Do(old(Value()), Finish(true))
    {
      hide Remove, Less;
      flushing := None;
      refs := Less(Less(refs, candidate.inode), candidate.inode);
      l := Remove(l, candidate.id);
    }

    /** The flush failed: the element is the inode's again, unless the inode got another. */
    method MarkUnclean_(candidate: Element) returns (already: bool)
      requires flushing.Some? && flushing.value.element == candidate
      modifies this
      ensures Value() == Do(old(Value()), Finish(false))
      ensures already <==> candidate.inode in old(dirtyElement)
    {
      FailedFlush(Value());
      hide Remove, Less, Do;
      flushing := None;
      refs := Less(refs, candidate.inode);
      already := candidate.inode in dirtyElement;
      if already {
        leaked := leaked + multiset{candidate.inode};
        l := Remove(l, candidate.id);
      } else {
        dirtyElement := dirtyElement[candidate.inode := candidate.id];
      }
    }
  }

  lemma FailedFlush(s: State)
    requires s.flushing.Some?
    ensures var e := s.flushing.value.element; var refs := Less(s.refs, e.inode);
      Do(s, Finish(false))
      == if e.inode in s.dirty
         then s.(flushing := None, refs := refs, queue := Remove(s.queue, e.id), leaked := s.leaked + multiset{e.inode})
         else s.(flushing := None, refs := refs, dirty := s.dirty[e.inode := e.id])
  {
    hide Remove, Less;
  }
}
