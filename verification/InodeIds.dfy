/** Inode ids: a high mark that decays, and released ids that rest before reuse
    (daemon/inodeids.go; the retry loop is in daemon/mux.go). */
module InodeIds {
  import opened Basics

  datatype Reusable = Reusable(id: InodeId, usable: Time)

  datatype Ids = Ids(highMark: nat, lastEvent: Time, reusable: seq<Reusable>, delay: nat, gcPeriod: nat)

  function IdsOf(q: seq<Reusable>): set<InodeId> {
    set e | e in q :: e.id
  }

  function Start(delay: nat, gcPeriod: nat): Ids {
    Ids(RESERVED_END + 1, 0, [], delay, gcPeriod)
  }

  // ---------------------------------------------------------------------------------------------
  // Operations on values

  /** testHighmark_: after an idle period the mark drops by a tenth, but not into the reserved ids. */
  function TestHighmark(s: Ids, now: Time): Ids {
    if now - s.lastEvent > s.gcPeriod then
      var mark := s.highMark * 9 / 10;
      s.(lastEvent := s.lastEvent + s.gcPeriod, highMark := if mark < RESERVED_END + 1 then RESERVED_END + 1 else mark)
    else s
  }

  /** The reuse loop: takes rested ids off the front until one is below the mark. */
  function Drain(q: seq<Reusable>, mark: nat, now: Time): (seq<Reusable>, Option<InodeId>) {
    if q == [] || q[0].usable > now then (q, None)
    else if q[0].id < mark then (q[1..], Some(q[0].id))
    else Drain(q[1..], mark, now)
  }

  /** The least id from the mark on that is not taken. */
  function FirstFree(mark: nat, taken: set<InodeId>): (f: InodeId)
    ensures f >= mark && f !in taken
    ensures forall x :: mark <= x < f ==> x in taken
    decreases |set x | x in taken && x >= mark|
  {
    if mark in taken then
      assert (set x | x in taken && x >= mark) == (set x | x in taken && x >= mark + 1) + {mark};
      FirstFree(mark + 1, taken)
    else mark
  }

  /** A new id: a rested one below the mark, or else the least from the mark on that neither rests
      nor is busy. */
  function NewId(s: Ids, now: Time, busy: set<InodeId>): (Ids, InodeId, bool) {
    var t := TestHighmark(s, now);
    var (q, rested) := Drain(t.reusable, t.highMark, now);
    if rested.Some? then (t.(reusable := q), rested.value, true) else
      var f := FirstFree(t.highMark, IdsOf(q) + busy);
      (t.(reusable := q, highMark := f + 1, lastEvent := now), f, false)
  }

  /** releaseInodeId: ids from the mark on need no rest. */
  function Release(s: Ids, now: Time, id: InodeId): Ids {
    var t := TestHighmark(s, now);
    if id >= t.highMark || id in IdsOf(t.reusable) then t
    else t.(reusable := t.reusable + [Reusable(id, now + t.delay)])
  }

  // ---------------------------------------------------------------------------------------------
  // Facts

  predicate Distinct(q: seq<Reusable>) {
    forall i, j :: 0 <= i < j < |q| ==> q[i].id != q[j].id
  }

  /** The list is in order of release. */
  predicate Ordered(q: seq<Reusable>) {
    forall i, j :: 0 <= i < j < |q| ==> q[i].usable <= q[j].usable
  }

  /** What the reuse loop leaves is the end of the list; all that it took off had rested, and but for
      the id it hands out none was below the mark. */
  lemma {:induction false} DrainTakes(q: seq<Reusable>, mark: nat, now: Time) returns (n: nat)
    ensures n <= |q| && Drain(q, mark, now).0 == q[n..]
    ensures forall i :: 0 <= i < n ==> q[i].usable <= now
    ensures match Drain(q, mark, now).1
      case Some(id) => n > 0 && q[n - 1].id == id && id < mark && forall i :: 0 <= i < n - 1 ==> q[i].id >= mark
      case None => (n < |q| ==> q[n].usable > now) && forall i :: 0 <= i < n ==> q[i].id >= mark
  {
    if q == [] || q[0].usable > now {
      n := 0;
    } else if q[0].id < mark {
      n := 1;
    } else {
      var m := DrainTakes(q[1..], mark, now);
      n := m + 1;
      assert forall i :: 0 < i < n ==> q[i] == q[1..][i - 1];
    }
  }

  lemma FirstFreeIs(mark: nat, taken: set<InodeId>, f: InodeId)
    requires mark <= f && f !in taken && forall x :: mark <= x < f ==> x in taken
    ensures FirstFree(mark, taken) == f
  {
    var g := FirstFree(mark, taken);
  }

  lemma FirstFreeOfMore(mark: nat, taken: set<InodeId>, busy: set<InodeId>)
    ensures var f := FirstFree(mark, taken);
      FirstFree(mark, taken + busy) == if f in busy then FirstFree(f + 1, taken + busy) else f
  {
    var f := FirstFree(mark, taken);
    FirstFreeIs(mark, taken + busy, if f in busy then FirstFree(f + 1, taken + busy) else f);
  }

  /** Asking again when the fresh id is busy comes to asking for one that is not. */
  lemma RetryIsNewId(s: Ids, now: Time, busy: set<InodeId>)
    ensures var (t, id, reused) := NewId(s, now, {});
      NewId(s, now, busy) == if !reused && id in busy then NewId(t, now, busy) else (t, id, reused)
  {
    var h := TestHighmark(s, now);
    var (q, rested) := Drain(h.reusable, h.highMark, now);
    if rested.None? {
      var n := DrainTakes(h.reusable, h.highMark, now);
      assert IdsOf(q) + {} == IdsOf(q);
      FirstFreeOfMore(h.highMark, IdsOf(q), busy);
      var t := NewId(s, now, {}).0;
      assert q == [] || q[0].usable > now;
      assert TestHighmark(t, now) == t && Drain(q, t.highMark, now) == (q, None);
    }
  }

  /** Right after a fresh id: no decay is due, and no id on the list has rested enough. */
  predicate Settled(s: Ids, now: Time) {
    s.lastEvent == now && (s.reusable == [] || s.reusable[0].usable > now)
  }

  lemma FreshSettles(s: Ids, now: Time)
    ensures var (t, id, reused) := NewId(s, now, {}); !reused ==> Settled(t, now) && t.highMark == id + 1
  {
    var h := TestHighmark(s, now);
    var n := DrainTakes(h.reusable, h.highMark, now);
  }

  lemma SettledIsFresh(s: Ids, now: Time, busy: set<InodeId>)
    requires Settled(s, now)
    ensures var (t, id, reused) := NewId(s, now, busy);
      !reused && id >= s.highMark && t.highMark == id + 1 && Settled(t, now)
  {
  }

  // ---------------------------------------------------------------------------------------------
  // Runs

  /** The allocator, the ids in use, the clock, and when each id was last set to rest. */
  datatype World = World(ids: Ids, inUse: set<InodeId>, clock: Time, rests: map<InodeId, Time>)

  datatype Step = Allocate(now: Time) | Free(now: Time, id: InodeId)

  /** The clock does not run backwards, and only ids in use are released. */
  predicate Enabled(w: World, step: Step) {
    w.clock <= step.now && (step.Free? ==> step.id in w.inUse)
  }

  function Do(w: World, step: Step): World {
    match step
    case Allocate(now) =>
      var (ids, id, _) := NewId(w.ids, now, w.inUse);
      World(ids, w.inUse + {id}, now, w.rests)
    case Free(now, id) =>
      var below := id < TestHighmark(w.ids, now).highMark;
      World(Release(w.ids, now, id), w.inUse - {id}, now, if below then w.rests[id := now] else w.rests - {id})
  }

  ghost predicate Inv(w: World) {
    && w.ids.highMark > RESERVED_END
    && Distinct(w.ids.reusable) && Ordered(w.ids.reusable)
    && (forall e :: e in w.ids.reusable ==>
          e.id > RESERVED_END && e.id !in w.inUse && e.usable <= w.clock + w.ids.delay)
    && (forall id :: id in w.inUse ==> id > RESERVED_END)
    // An id that must still rest is on the list.
    && (forall id :: id in w.rests && id !in w.inUse && w.clock < w.rests[id] + w.ids.delay ==>
          Reusable(id, w.rests[id] + w.ids.delay) in w.ids.reusable)
    && (forall id :: id in w.rests ==> w.rests[id] <= w.clock)
  }

  /** A new id is not reserved, not in use, has rested as long as it must, and is fresh only when no
      id on the list has rested enough. */
  lemma NewIdIsFree(w: World, now: Time)
    requires Inv(w) && w.clock <= now
    ensures var (ids, id, reused) := NewId(w.ids, now, w.inUse);
      && id > RESERVED_END && id !in w.inUse && (forall e :: e in ids.reusable ==> e.id != id)
      && (id in w.rests ==> w.rests[id] + w.ids.delay <= now)
      && (!reused ==> forall e :: e in ids.reusable ==> e.usable > now)
  {
    var s := TestHighmark(w.ids, now);
    var (ids, id, reused) := NewId(w.ids, now, w.inUse);
    var q := s.reusable;
    var n := DrainTakes(q, s.highMark, now);
    forall e | e in ids.reusable ensures e.id != id && (!reused ==> e.usable > now) {
      var i :| 0 <= i < |ids.reusable| && ids.reusable[i] == e;
      assert e == q[n + i] && (i > 0 ==> q[n].usable <= q[n + i].usable);
    }
    if reused {
      assert q[n - 1].id == id;
    }
    SuffixKeeps(q, n, now);
  }

  /** The mark goes down after an idle period, until it is just above the reserved ids, and only then. */
  lemma TestHighmarkKeeps(s: Ids, now: Time)
    requires s.highMark > RESERVED_END
    ensures var t := TestHighmark(s, now);
      && RESERVED_END < t.highMark <= s.highMark && t.reusable == s.reusable && t.delay == s.delay
      && (t.highMark < s.highMark <==> now - s.lastEvent > s.gcPeriod && s.highMark > RESERVED_END + 1)
      && (t.highMark < s.highMark ==>
            && s.highMark * 9 < t.highMark * 10 + 10
            && (t.highMark * 10 <= s.highMark * 9 || t.highMark == RESERVED_END + 1))
      && t.lastEvent == s.lastEvent + if now - s.lastEvent > s.gcPeriod then s.gcPeriod else 0
  {
  }

  function Periods(s: Ids, n: nat): Ids
    decreases n
  {
    if n == 0 then s else Periods(TestHighmark(s, s.lastEvent + s.gcPeriod + 1), n - 1)
  }

  /** An allocator that is left idle goes all the way down. */
  lemma {:induction false} IdleMarkGoesDown(s: Ids, n: nat)
    requires s.highMark > RESERVED_END && n >= s.highMark - RESERVED_END - 1
    ensures Periods(s, n).highMark == RESERVED_END + 1
    decreases n
  {
    if n > 0 {
      TestHighmarkKeeps(s, s.lastEvent + s.gcPeriod + 1);
      IdleMarkGoesDown(TestHighmark(s, s.lastEvent + s.gcPeriod + 1), n - 1);
    }
  }

  lemma AllocateKeepsInv(w: World, now: Time)
    requires Inv(w) && w.clock <= now
    ensures Inv(Do(w, Allocate(now)))
  {
    hide NewId, Distinct, Ordered;
    NewIdIsFree(w, now);
    var n := NewIdLeaves(w.ids, now, w.inUse);
    SuffixKeeps(w.ids.reusable, n, now);
  }

  lemma NewIdLeaves(s: Ids, now: Time, busy: set<InodeId>) returns (n: nat)
    requires s.highMark > RESERVED_END
    ensures var t := NewId(s, now, busy).0;
      && n <= |s.reusable| && t.reusable == s.reusable[n..] && t.delay == s.delay
      && t.highMark > RESERVED_END
    ensures forall i :: 0 <= i < n ==> s.reusable[i].usable <= now
  {
    var h := TestHighmark(s, now);
    n := DrainTakes(h.reusable, h.highMark, now);
  }

  lemma SuffixKeeps(q: seq<Reusable>, n: nat, now: Time)
    requires n <= |q| && Distinct(q) && Ordered(q) && forall i :: 0 <= i < n ==> q[i].usable <= now
    ensures Distinct(q[n..]) && Ordered(q[n..])
    ensures forall e :: e in q[n..] ==> e in q
    ensures forall e :: e in q && e.usable > now ==> e in q[n..]
  {
    forall e | e in q && e.usable > now ensures e in q[n..] {
      var i :| 0 <= i < |q| && q[i] == e;
      assert q[n..][i - n] == e;
    }
  }

  lemma FreeKeepsInv(w: World, now: Time, id: InodeId)
    requires Inv(w) && w.clock <= now && id in w.inUse
    ensures Inv(Do(w, Free(now, id)))
    ensures id !in IdsOf(TestHighmark(w.ids, now).reusable)
  {
    hide TestHighmark;
    TestHighmarkKeeps(w.ids, now);
    var ids := Release(w.ids, now, id);
    if id < TestHighmark(w.ids, now).highMark {
      PushedKeepsInv(w, now, id, ids);
    } else {
      DiscardedKeepsInv(w, now, id, ids);
    }
  }

  lemma PushedKeepsInv(w: World, now: Time, id: InodeId, ids: Ids)
    requires Inv(w) && w.clock <= now && id in w.inUse && ids.highMark > RESERVED_END && ids.delay == w.ids.delay
    requires ids.reusable == w.ids.reusable + [Reusable(id, now + ids.delay)]
    ensures Inv(World(ids, w.inUse - {id}, now, w.rests[id := now]))
    ensures id !in IdsOf(w.ids.reusable)
  {
    assert id !in IdsOf(w.ids.reusable);
    hide Distinct, Ordered;
    PushKeeps(w.ids.reusable, Reusable(id, now + ids.delay));
  }

  lemma DiscardedKeepsInv(w: World, now: Time, id: InodeId, ids: Ids)
    requires Inv(w) && w.clock <= now && id in w.inUse && ids.highMark > RESERVED_END && ids.delay == w.ids.delay
    requires ids.reusable == w.ids.reusable
    ensures Inv(World(ids, w.inUse - {id}, now, w.rests - {id}))
    ensures id !in IdsOf(w.ids.reusable)
  {
    hide Distinct, Ordered;
  }

  lemma PushKeeps(q: seq<Reusable>, e: Reusable)
    requires Distinct(q) && Ordered(q) && e.id !in IdsOf(q)
    requires forall x :: x in q ==> x.usable <= e.usable
    ensures Distinct(q + [e]) && Ordered(q + [e]) && e in q + [e]
    ensures forall x :: x in q ==> x in q + [e]
  {
    forall i | 0 <= i < |q| ensures q[i].id != e.id {
      assert q[i] in q;
    }
  }

  function After(w: World, steps: seq<Step>): World
    decreases |steps|
  {
    if steps == [] then w else After(Do(w, steps[0]), steps[1..])
  }

  predicate Possible(w: World, steps: seq<Step>)
    decreases |steps|
  {
    steps == [] || (Enabled(w, steps[0]) && Possible(Do(w, steps[0]), steps[1..]))
  }

  lemma {:induction false} RunKeepsInv(w: World, steps: seq<Step>)
    requires Inv(w) && Possible(w, steps)
    ensures Inv(After(w, steps))
    decreases |steps|
  {
    if steps != [] {
      match steps[0] {
        case Allocate(now) => AllocateKeepsInv(w, now);
        case Free(now, id) => FreeKeepsInv(w, now, id);
      }
      RunKeepsInv(Do(w, steps[0]), steps[1..]);
    }
  }

  /** After any run, the next id is neither reserved nor in use, and an id that was released below
      the mark comes back no sooner than its delay; the list has no id twice and none in use. */
  lemma EveryIdIsFree(delay: nat, gcPeriod: nat, steps: seq<Step>, now: Time)
    requires Possible(World(Start(delay, gcPeriod), {}, 0, map[]), steps)
    requires After(World(Start(delay, gcPeriod), {}, 0, map[]), steps).clock <= now
    ensures var w := After(World(Start(delay, gcPeriod), {}, 0, map[]), steps);
      var (_, id, _) := NewId(w.ids, now, w.inUse);
      && id > RESERVED_END && id !in w.inUse
      && (id in w.rests ==> w.rests[id] + w.ids.delay <= now)
      && Distinct(w.ids.reusable) && IdsOf(w.ids.reusable) !! w.inUse
  {
    var start := World(Start(delay, gcPeriod), {}, 0, map[]);
    RunKeepsInv(start, steps);
    var w := After(start, steps);
    NewIdIsFree(w, now);
  }

  // ---------------------------------------------------------------------------------------------
  // Which ids rest

  /** A number of allocations at one instant. */
  function Allocations(w: World, now: Time, n: nat): World
    decreases n
  {
    if n == 0 then w else Allocations(Do(w, Allocate(now)), now, n - 1)
  }

  /** The id is handed out at that instant, perhaps after others. */
  ghost predicate ComesBack(w: World, id: InodeId, now: Time) {
    exists n: nat :: Next(Allocations(w, now, n), now) == id
  }

  function Next(w: World, now: Time): InodeId {
    NewId(w.ids, now, w.inUse).1
  }

  /** What is neither in use nor on the list. */
  predicate IsFree(w: World, id: InodeId) {
    id !in w.inUse && id !in IdsOf(w.ids.reusable)
  }

  /** One allocation: the list gets shorter, or the mark moves towards the id and does not pass it. */
  lemma AllocateTowards(w: World, id: InodeId, now: Time)
    requires Inv(w) && w.clock <= now && IsFree(w, id) && id >= w.ids.highMark && Next(w, now) != id
    ensures var v := Do(w, Allocate(now));
      && Inv(v) && v.clock == now && IsFree(v, id) && id >= v.ids.highMark
      && (|v.ids.reusable| < |w.ids.reusable|
          || (|v.ids.reusable| == |w.ids.reusable| && v.ids.lastEvent == now
              && (w.ids.lastEvent == now ==> v.ids.highMark > w.ids.highMark)))
  {
    AllocateKeepsInv(w, now);
    TestHighmarkKeeps(w.ids, now);
    var s := TestHighmark(w.ids, now);
    var n := DrainTakes(s.reusable, s.highMark, now);
    var (ids, x, reused) := NewId(w.ids, now, w.inUse);
    assert ids.reusable == w.ids.reusable[n..];
    assert id !in IdsOf(ids.reusable);
  }

  lemma {:induction false} ReachedFrom(w: World, id: InodeId, now: Time)
    requires Inv(w) && w.clock <= now && IsFree(w, id) && id >= w.ids.highMark
    ensures ComesBack(w, id, now)
    decreases |w.ids.reusable|, if w.ids.lastEvent == now then 0 else 1, id - w.ids.highMark
  {
    if Next(w, now) == id {
      assert Next(Allocations(w, now, 0), now) == id;
    } else {
      var v := Do(w, Allocate(now));
      AllocateTowards(w, id, now);
      ReachedFrom(v, id, now);
      var n: nat :| Next(Allocations(v, now, n), now) == id;
      assert Allocations(w, now, n + 1) == Allocations(v, now, n);
    }
  }

  lemma {:induction false} RestsThrough(w: World, id: InodeId, now: Time, n: nat)
    requires Inv(w) && w.clock <= now && id in w.rests && w.rests[id] + w.ids.delay > now
    ensures Next(Allocations(w, now, n), now) != id
    decreases n
  {
    if n == 0 {
      NewIdIsFree(w, now);
    } else {
      AllocateKeepsInv(w, now);
      var k := NewIdLeaves(w.ids, now, w.inUse);
      RestsThrough(Do(w, Allocate(now)), id, now, n - 1);
    }
  }

  /** After any release an id can come back at that very instant if and only if it is not below the
      mark, however long the delay. */
  lemma ComesBackIffAboveTheMark(w: World, id: InodeId, now: Time)
    requires Inv(w) && Enabled(w, Free(now, id)) && w.ids.delay > 0
    ensures ComesBack(Do(w, Free(now, id)), id, now) <==> id >= TestHighmark(w.ids, now).highMark
  {
    var v := Do(w, Free(now, id));
    FreeKeepsInv(w, now, id);
    TestHighmarkKeeps(w.ids, now);
    if id >= TestHighmark(w.ids, now).highMark {
      ReachedFrom(v, id, now);
    } else {
      forall n: nat ensures Next(Allocations(v, now, n), now) != id {
        RestsThrough(v, id, now, n);
      }
    }
  }

  // ---------------------------------------------------------------------------------------------
  // In place

  class InodeIdsImpl {
    var highMark: nat
    var lastEvent: Time
    const gcPeriod: nat
    var reusableIds: seq<Reusable>
    var reusableMap: set<InodeId>
    const reusableDelay: nat

    /** The list and the map agree, without duplicates. */
    ghost predicate Valid()
      reads this
    {
      reusableMap == IdsOf(reusableIds) && Distinct(reusableIds)
    }

    ghost function Value(): Ids
      reads this
    {
      Ids(highMark, lastEvent, reusableIds, reusableDelay, gcPeriod)
    }

    constructor (delay: nat, gcPeriod: nat)
      ensures Valid() && Value() == Start(delay, gcPeriod)
    {
      this.gcPeriod, reusableDelay := gcPeriod, delay;
      highMark, lastEvent, reusableIds, reusableMap := RESERVED_END + 1, 0, [], {};
    }

    method TestHighmark_(now: Time)
      requires Valid()
      modifies this
      ensures Valid() && Value() == TestHighmark(old(Value()), now)
    {
      if now - lastEvent > gcPeriod {
        lastEvent := lastEvent + gcPeriod;
        highMark := highMark * 9 / 10;
        if highMark < RESERVED_END + 1 {
          highMark := RESERVED_END + 1;
        }
      }
    }

    /** allocateFreshId_: past the ids that still rest. */
    method AllocateFreshId_(now: Time) returns (id: InodeId)
      requires Valid()
      modifies this
      ensures Valid() && id == FirstFree(old(highMark), reusableMap)
      ensures Value() == old(Value()).(highMark := id + 1, lastEvent := now)
    {
      lastEvent := now;
      ghost var target := FirstFree(highMark, reusableMap);
      id := highMark;
      highMark := highMark + 1;
      while id in reusableMap
        invariant highMark == id + 1 && id <= target && FirstFree(id, reusableMap) == target
        invariant Valid() && Value() == old(Value()).(highMark := id + 1, lastEvent := now)
        decreases target - id
      {
        id := highMark;
        highMark := highMark + 1;
      }
    }

    /** remove_ of the front of the list. */
    method RemoveFront_()
      requires Valid() && reusableIds != []
      modifies this
      ensures Valid() && Value() == old(Value()).(reusable := old(reusableIds)[1..])
    {
      var front := reusableIds[0];
      assert IdsOf(reusableIds[1..]) == IdsOf(reusableIds) - {front.id} by {
        forall e | e in reusableIds && e.id != front.id ensures e in reusableIds[1..] {
        }
      }
      reusableIds := reusableIds[1..];
      reusableMap := reusableMap - {front.id};
    }

    method NewInodeId(now: Time) returns (id: InodeId, reused: bool)
      requires Valid()
      modifies this
      ensures Valid() && (Value(), id, reused) == NewId(old(Value()), now, {})
    {
      TestHighmark_(now);
      ghost var start := reusableIds;
      ghost var mark := Value();
      while reusableIds != [] && reusableIds[0].usable <= now
        invariant Valid() && Value() == mark.(reusable := reusableIds)
        invariant Drain(reusableIds, highMark, now) == Drain(start, highMark, now)
        decreases |reusableIds|
      {
        var next := reusableIds[0];
        RemoveFront_();
        if next.id < highMark {
          return next.id, true;
        }
      }
      assert IdsOf(reusableIds) + {} == reusableMap;
      id := AllocateFreshId_(now);
      reused := false;
    }

    /** releaseInodeId, with push_; a double push changes nothing. */
    method ReleaseInodeId(now: Time, id: InodeId)
      requires Valid()
      modifies this
      ensures Valid() && Value() == Release(old(Value()), now, id)
    {
      TestHighmark_(now);
      if id >= highMark || id in reusableMap {
        return;
      }
      reusableIds := reusableIds + [Reusable(id, now + reusableDelay)];
      reusableMap := reusableMap + {id};
    }
  }

  /** newInodeId of the mux: asks again while a fresh id turns out to be in use. */
  method NewInodeId(ids: InodeIdsImpl, inUse: set<InodeId>, now: Time) returns (id: InodeId)
    requires ids.Valid()
    modifies ids
    ensures ids.Valid()
    ensures ids.Value() == NewId(old(ids.Value()), now, inUse).0 && id == NewId(old(ids.Value()), now, inUse).1
  {
    ghost var start := ids.Value();
    ghost var goal := NewId(start, now, inUse).1;
    RetryIsNewId(start, now, inUse);
    FreshSettles(start, now);
    var reused;
    id, reused := ids.NewInodeId(now);
    while !reused && id in inUse
      invariant ids.Valid()
      invariant if !reused && id in inUse then NewId(ids.Value(), now, inUse) == NewId(start, now, inUse)
                else (ids.Value(), id, reused) == NewId(start, now, inUse)
      invariant !reused ==> ids.highMark == id + 1 && Settled(ids.Value(), now)
      decreases if reused then 0 else goal + 1 - id
    {
      RetryIsNewId(ids.Value(), now, inUse);
      SettledIsFresh(ids.Value(), now, inUse);
      SettledIsFresh(ids.Value(), now, {});
      id, reused := ids.NewInodeId(now);
    }
  }
}
