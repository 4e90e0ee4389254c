/** The hardlink table and the deltas that bubble up to it (daemon/hardlinktable.go,
    daemon/hardlinkdelta.go). */
module HardlinkTable {
  import opened Basics

  datatype Tuple = Tuple(additions: nat, deletions: nat)

  type Delta = map<FileId, Tuple>

  function TupleOf(d: Delta, f: FileId): Tuple {
    if f in d then d[f] else Tuple(0, 0)
  }

  function IncDelta(d: Delta, f: FileId): Delta {
    d[f := TupleOf(d, f).(additions := TupleOf(d, f).additions + 1)]
  }

  function DecDelta(d: Delta, f: FileId): Delta {
    d[f := TupleOf(d, f).(deletions := TupleOf(d, f).deletions + 1)]
  }

  /** Component-wise sum of two deltas. */
  function JoinDelta(d: Delta, o: Delta): Delta {
    map f | f in d.Keys + o.Keys ::
      Tuple(TupleOf(d, f).additions + TupleOf(o, f).additions, TupleOf(d, f).deletions + TupleOf(o, f).deletions)
  }

  datatype Entry = Entry(nlink: int, delta: int, numDeltas: int, inodeId: InodeId)
  {
    /** The conversion to uint32 is explicit. */
    function EffectiveNlink(): int {
      (nlink + delta) % UINT32_RANGE
    }

    function Inc(): Entry {
      this.(delta := delta + 1, numDeltas := numDeltas + 1)
    }

    function Dec(): Entry {
      this.(delta := delta - 1, numDeltas := numDeltas + 1)
    }

    /** A delta that reached the root becomes part of nlink. */
    function Absorb(t: Tuple): Entry {
      this.(nlink := nlink + t.additions - t.deletions,
            delta := delta - t.additions + t.deletions,
            numDeltas := numDeltas - t.additions - t.deletions)
    }

    predicate Dead() {
      nlink == 0 && numDeltas == 0
    }
  }

  datatype Table = Table(links: map<FileId, Entry>, inodes: map<InodeId, FileId>)
  {
    /** inodeToLink is the inverse of the entries' valid inode ids. */
    ghost predicate InodesMatch() {
      && (forall i :: i in inodes ==>
            i != INODE_ID_INVALID && inodes[i] in links && links[inodes[i]].inodeId == i)
      && (forall f :: f in links && links[f].inodeId != INODE_ID_INVALID ==>
            links[f].inodeId in inodes && inodes[links[f].inodeId] == f)
    }

    function Set(f: FileId, e: Entry): Table {
      this.(links := links[f := e])
    }

    function Remove(f: FileId): Table
      requires f in links
    {
      Table(links - {f}, if links[f].inodeId != INODE_ID_INVALID then inodes - {links[f].inodeId} else inodes)
    }

    /** apply, for one file id. */
    function AbsorbOne(f: FileId, t: Tuple): Table {
      if f !in links then this
      else
        var e := links[f].Absorb(t);
        var t' := Set(f, e);
        if e.Dead() then t'.Remove(f) else t'
    }

    /** apply, for all file ids at once. */
    function Absorb(d: Delta): Table {
      Table(Kept(d), inodes - Gone(d))
    }

    predicate Dies(d: Delta, f: FileId)
      requires f in links
    {
      f in d && links[f].Absorb(d[f]).Dead()
    }

    function Kept(d: Delta): map<FileId, Entry> {
      map f | f in links && !Dies(d, f) :: if f in d then links[f].Absorb(d[f]) else links[f]
    }

    /** The inode ids of the entries that apply removes. */
    function Gone(d: Delta): set<InodeId> {
      set f | f in links && Dies(d, f) && links[f].inodeId != INODE_ID_INVALID :: links[f].inodeId
    }

    /** newHardlink. */
    function New(f: FileId, inode: InodeId): Table {
      Table(links[f := Entry(1, 0, 0, inode)], inodes[inode := f])
    }

    /** invalidateNormalizedRecordLock. */
    function Invalidate(f: FileId): Table
      requires f in links
    {
      Table(links[f := links[f].(inodeId := INODE_ID_INVALID)], inodes - {links[f].inodeId})
    }

    /** updateHardlinkInodeId with an id to be given to an entry that has none. */
    function GiveInode(f: FileId, inode: InodeId): Table
      requires f in links
    {
      if links[f].inodeId != INODE_ID_INVALID then this
      else Table(links[f := links[f].(inodeId := inode)], inodes[inode := f])
    }
  }

  class HardlinkDelta {
    var m: Delta

    constructor ()
      ensures m == map[]
    {
      m := map[];
    }

    method Inc(f: FileId)
      modifies this
      ensures m == IncDelta(old(m), f)
    {
      var d := if f in m then m[f] else Tuple(0, 0);
      m := m[f := d.(additions := d.additions + 1)];
    }

    method Dec(f: FileId)
      modifies this
      ensures m == DecDelta(old(m), f)
    {
      var d := if f in m then m[f] else Tuple(0, 0);
      m := m[f := d.(deletions := d.deletions + 1)];
    }

    /** populateFrom: take over another directory's deltas, in any order, leaving it empty. */
    method PopulateFrom(o: HardlinkDelta)
      requires o != this
      modifies this, o
      ensures m == JoinDelta(old(m), old(o.m)) && o.m == map[]
    {
      hide JoinDelta;
      var todo := o.m.Keys;
      ghost var seen: Delta := map[];
      NothingJoined(m);
      while todo != {}
        invariant todo <= o.m.Keys && o.m == old(o.m)
        invariant seen == map f | f in o.m && f !in todo :: o.m[f]
        invariant m == JoinDelta(old(m), seen)
        decreases |todo|
      {
        var f :| f in todo;
        JoinStep(old(m), seen, f, o.m[f]);
        var d := if f in m then m[f] else Tuple(0, 0);
        m := m[f := Tuple(d.additions + o.m[f].additions, d.deletions + o.m[f].deletions)];
        seen := seen[f := o.m[f]];
        todo := todo - {f};
      }
      assert seen == o.m;
      o.m := map[];
    }
  }

  class HardlinkTableImpl {
    var hardlinks: map<FileId, Entry>
    var inodeToLink: map<InodeId, FileId>

    function Abs(): Table
      reads this
    {
      Table(hardlinks, inodeToLink)
    }

    constructor (links: map<FileId, Entry>)
      ensures Abs() == Table(links, map[])
    {
      hardlinks := links;
      inodeToLink := map[];
    }

    /** An unknown file id panics. */
    method HardlinkInc(f: FileId)
      requires f in hardlinks
      modifies this
      ensures Abs() == old(Abs()).Set(f, old(hardlinks)[f].Inc())
    {
      hardlinks := hardlinks[f := hardlinks[f].(delta := hardlinks[f].delta + 1)];
      hardlinks := hardlinks[f := hardlinks[f].(numDeltas := hardlinks[f].numDeltas + 1)];
    }

    /** An unknown file id panics, and so does an entry without effective links.  Returns whether
        the last leg is gone. */
    method HardlinkDec(f: FileId) returns (last: bool)
      requires f in hardlinks && hardlinks[f].EffectiveNlink() > 0
      modifies this
      ensures Abs() == old(Abs()).Set(f, old(hardlinks)[f].Dec())
      ensures last <==> old(hardlinks)[f].Dec().EffectiveNlink() == 0
    {
      hardlinks := hardlinks[f := hardlinks[f].(numDeltas := hardlinks[f].numDeltas + 1)];
      hardlinks := hardlinks[f := hardlinks[f].(delta := hardlinks[f].delta - 1)];
      last := !(hardlinks[f].EffectiveNlink() > 0);
    }

    method NewHardlink(f: FileId, inode: InodeId)
      requires f !in hardlinks
      modifies this
      ensures Abs() == old(Abs()).New(f, inode)
    {
      hardlinks := hardlinks[f := Entry(1, 0, 0, inode)];
      inodeToLink := inodeToLink[inode := f];
    }

    /** updateHardlinkInodeId; `given` is the id handed out when none is given. */
    method UpdateHardlinkInodeId(f: FileId, inode: InodeId, given: InodeId) returns (id: InodeId)
      requires f in hardlinks && given != INODE_ID_INVALID
      requires hardlinks[f].inodeId != INODE_ID_INVALID ==> inode == INODE_ID_INVALID || inode == hardlinks[f].inodeId
      modifies this
      ensures Abs() == old(Abs()).GiveInode(f, if inode == INODE_ID_INVALID then given else inode)
      ensures id != INODE_ID_INVALID && id == hardlinks[f].inodeId
    {
      if hardlinks[f].inodeId != INODE_ID_INVALID {
        return hardlinks[f].inodeId;
      }
      id := if inode == INODE_ID_INVALID then given else inode;
      hardlinks := hardlinks[f := hardlinks[f].(inodeId := id)];
      inodeToLink := inodeToLink[id := f];
    }

    /** One round of apply's loop; an unknown file id drops its delta. */
    method ApplyOne(f: FileId, t: Tuple)
      modifies this
      ensures Abs() == old(Abs()).AbsorbOne(f, t)
    {
      if f !in hardlinks {
        return;
      }
      var e := hardlinks[f];
      e := e.(nlink := e.nlink + t.additions - t.deletions);
      e := e.(delta := e.delta - t.additions + t.deletions);
      e := e.(numDeltas := e.numDeltas - (t.additions + t.deletions));
      hardlinks := hardlinks[f := e];
      if e.nlink == 0 && e.numDeltas == 0 {
        hardlinks := hardlinks - {f};
        if e.inodeId != INODE_ID_INVALID {
          inodeToLink := inodeToLink - {e.inodeId};
        }
      }
    }

    /** apply: absorb the deltas in any order, leaving them empty.  The order does not matter. */
    method Apply(d: HardlinkDelta)
      modifies this, d
      ensures Abs() == old(Abs()).Absorb(old(d.m)) && d.m == map[]
    {
      var todo := d.m.Keys;
      NothingAbsorbed(Abs());
      ghost var seen: Delta := map[];
      while todo != {}
        invariant todo <= d.m.Keys && d.m == old(d.m)
        invariant seen == map f | f in d.m && f !in todo :: d.m[f]
        invariant Abs() == old(Abs()).Absorb(seen)
        decreases |todo|
      {
        var f :| f in todo;
        AbsorbStep(old(Abs()), seen, f, d.m[f]);
        ApplyOne(f, d.m[f]);
        seen := seen[f := d.m[f]];
        todo := todo - {f};
      }
      assert seen == d.m;
      d.m := map[];
    }
  }

  lemma NothingJoined(d: Delta)
    ensures JoinDelta(d, map[]) == d
  {
  }

  lemma JoinStep(d: Delta, o: Delta, f: FileId, t: Tuple)
    requires f !in o
    ensures var was := TupleOf(JoinDelta(d, o), f);
            JoinDelta(d, o)[f := Tuple(was.additions + t.additions, was.deletions + t.deletions)]
            == JoinDelta(d, o[f := t])
  {
  }

  lemma NothingAbsorbed(t: Table)
    ensures t.Absorb(map[]) == t
  {
    assert t.Kept(map[]) == t.links;
  }

  /** Absorbing one more file id after the others. */
  lemma AbsorbStep(t: Table, d: Delta, f: FileId, tuple: Tuple)
    requires f !in d
    ensures t.Absorb(d).AbsorbOne(f, tuple) == t.Absorb(d[f := tuple])
  {
    KeptStep(t, d, f, tuple);
    GoneStep(t, d, f, tuple);
    hide Table.Kept, Table.Gone;
    if f in t.links {
      var e := t.links[f].Absorb(tuple);
      if e.Dead() {
        assert t.Kept(d)[f := e] - {f} == t.Kept(d) - {f};
      }
    }
  }

  lemma KeptStep(t: Table, d: Delta, f: FileId, tuple: Tuple)
    requires f !in d
    ensures if f in t.links then
              var e := t.links[f].Absorb(tuple);
              && f in t.Kept(d) && t.Kept(d)[f] == t.links[f]
              && t.Kept(d[f := tuple]) == if e.Dead() then t.Kept(d) - {f} else t.Kept(d)[f := e]
            else
              f !in t.Kept(d) && t.Kept(d[f := tuple]) == t.Kept(d)
  {
  }

  lemma GoneStep(t: Table, d: Delta, f: FileId, tuple: Tuple)
    requires f !in d
    ensures t.Gone(d[f := tuple])
         == t.Gone(d) + if f in t.links && t.links[f].Absorb(tuple).Dead() && t.links[f].inodeId != INODE_ID_INVALID
                        then {t.links[f].inodeId} else {}
  {
    var d' := d[f := tuple];
    forall g | g in t.links && g != f ensures t.Dies(d', g) <==> t.Dies(d, g) {
    }
  }
}
