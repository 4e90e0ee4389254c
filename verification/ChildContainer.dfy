/** The two-view child container of a directory (daemon/childcontainer.go). */
module ChildContainer {
  import opened Basics

  /** A record's object key, its creation time, and all its other attributes as one value. */
  datatype Attributes = Attributes(id: nat, created: nat, rest: nat)

  class Record {
    var name: string
    var data: Attributes
    const hardlink: bool

    constructor (name: string, data: Attributes, hardlink: bool)
      ensures this.name == name && this.data == data && this.hardlink == hardlink
    {
      this.name, this.data, this.hardlink := name, data, hardlink;
    }
  }

  type Flat = map<string, Record>
  type Nested = map<InodeId, Flat>

  // ---------------------------------------------------------------------------------------------
  // Maps by inode and name

  function Names(m: Nested, i: InodeId): Flat {
    if i in m then m[i] else map[]
  }

  function AddToMap(m: Nested, i: InodeId, n: string, r: Record): Nested {
    m[i := Names(m, i)[n := r]]
  }

  /** removeFromMap: an inode's last name goes with the inode. */
  function RemoveFromMap(m: Nested, i: InodeId, n: string): Nested {
    if i !in m then m
    else if |m[i]| == 1 then m - {i}
    else m[i := m[i] - {n}]
  }

  /** The assertion in removeFromMap: a sole name is the one to be removed. */
  predicate RemovesOnly(m: Nested, i: InodeId, n: string) {
    i in m && |m[i]| == 1 ==> m[i].Keys == {n}
  }

  /** The names of a flat view that are bound to an inode. */
  function Bound(children: map<string, InodeId>, flat: Flat, i: InodeId): Flat {
    map n | n in flat && n in children && children[n] == i :: flat[n]
  }

  /** A flat view by name, arranged by inode: inodes without a name in the view do not occur. */
  function Group(children: map<string, InodeId>, flat: Flat): Nested {
    map i | i in (set n | n in flat && n in children :: children[n]) :: Bound(children, flat, i)
  }

  lemma GroupAt(children: map<string, InodeId>, flat: Flat, i: InodeId)
    ensures i in Group(children, flat) <==> Bound(children, flat, i) != map[]
    ensures Names(Group(children, flat), i) == Bound(children, flat, i)
  {
    var g := Group(children, flat);
    if i in g {
      var n :| n in flat && n in children && children[n] == i;
      assert n in Bound(children, flat, i);
    } else {
      assert Bound(children, flat, i) == map[] by {
        if n :| n in Bound(children, flat, i) {
          assert false;
        }
      }
    }
  }

  /** Two nested maps without empty parts are equal if they agree at every inode. */
  lemma SameNested(a: Nested, b: Nested)
    requires forall i :: i in a ==> a[i] != map[]
    requires forall i :: i in b ==> b[i] != map[]
    requires forall i :: Names(a, i) == Names(b, i)
    ensures a == b
  {
    forall i
      ensures i in a <==> i in b
      ensures i in a && i in b ==> a[i] == b[i]
    {
      assert Names(a, i) == Names(b, i);
    }
  }

  lemma GroupAdd(children: map<string, InodeId>, flat: Flat, n: string, i: InodeId, r: Record)
    requires n in children ==> children[n] == i
    ensures AddToMap(Group(children, flat), i, n, r) == Group(children[n := i], flat[n := r])
  {
    hide Bound;
    var a, b := AddToMap(Group(children, flat), i, n, r), Group(children[n := i], flat[n := r]);
    forall j ensures Names(a, j) == Names(b, j) && (j in a ==> a[j] != map[]) && (j in b ==> b[j] != map[]) {
      GroupAt(children, flat, j);
      GroupAt(children[n := i], flat[n := r], j);
      BoundAdd(children, flat, n, i, r, j);
      assert n in Bound(children, flat, i)[n := r];
    }
    hide AddToMap, Group;
    SameNested(a, b);
  }

  lemma BoundAdd(children: map<string, InodeId>, flat: Flat, n: string, i: InodeId, r: Record, j: InodeId)
    requires n in children ==> children[n] == i
    ensures Bound(children[n := i], flat[n := r], j)
         == if j == i then Bound(children, flat, j)[n := r] else Bound(children, flat, j)
  {
  }

  /** A name that the view does not have may be bound or unbound. */
  lemma GroupIgnores(children: map<string, InodeId>, flat: Flat, n: string, i: InodeId)
    requires n !in flat
    ensures Group(children[n := i], flat) == Group(children, flat) == Group(children - {n}, flat)
  {
    var a, b, c := Group(children[n := i], flat), Group(children, flat), Group(children - {n}, flat);
    forall j
      ensures Names(a, j) == Names(b, j) == Names(c, j)
      ensures (j in a ==> a[j] != map[]) && (j in b ==> b[j] != map[]) && (j in c ==> c[j] != map[])
    {
      GroupAt(children, flat, j);
      GroupAt(children[n := i], flat, j);
      GroupAt(children - {n}, flat, j);
      assert Bound(children[n := i], flat, j) == Bound(children, flat, j) == Bound(children - {n}, flat, j);
    }
    SameNested(a, b);
    SameNested(b, c);
  }

  /** removeFromMap takes out just the one name, and its assertion holds. */
  lemma GroupRemove(children: map<string, InodeId>, flat: Flat, n: string)
    requires n in children
    requires n in flat || Bound(children, flat, children[n]) == map[]
    ensures RemovesOnly(Group(children, flat), children[n], n)
    ensures RemoveFromMap(Group(children, flat), children[n], n) == Group(children, flat - {n})
  {
    hide Bound, Group, RemoveFromMap, RemovesOnly;
    var i := children[n];
    var g := Group(children, flat);
    var a, b := RemoveFromMap(g, i, n), Group(children, flat - {n});
    GroupAt(children, flat, i);
    if n in flat {
      BoundHas(children, flat, n);
    }
    RemovedNames(g, i, n, i);
    forall j ensures Names(a, j) == Names(b, j) && (j in a ==> a[j] != map[]) && (j in b ==> b[j] != map[]) {
      GroupAt(children, flat, j);
      GroupAt(children, flat - {n}, j);
      BoundRemove(children, flat, n, j);
      RemovedNames(g, i, n, j);
    }
    SameNested(a, b);
  }

  lemma BoundHas(children: map<string, InodeId>, flat: Flat, n: string)
    requires n in children && n in flat
    ensures n in Bound(children, flat, children[n])
  {
  }

  lemma BoundRemove(children: map<string, InodeId>, flat: Flat, n: string, j: InodeId)
    requires n in children
    ensures Bound(children, flat - {n}, j)
         == if j == children[n] then Bound(children, flat, j) - {n} else Bound(children, flat, j)
  {
  }

  /** The names after removeFromMap, if the inode has the name or has none at all. */
  lemma RemovedNames(m: Nested, i: InodeId, n: string, j: InodeId)
    requires i in m ==> n in m[i]
    requires j in m ==> m[j] != map[]
    ensures RemovesOnly(m, i, n)
    ensures var r := RemoveFromMap(m, i, n);
      && Names(r, j) == (if j == i then Names(m, j) - {n} else Names(m, j))
      && (j in r ==> r[j] != map[])
  {
    if i in m {
      var names := m[i];
      assert names.Keys == {n} + (names.Keys - {n});
      assert |names.Keys| == 1 + |names.Keys - {n}|;
      assert |names| == 1 <==> names - {n} == map[];
    }
  }

  lemma GroupDrop(children: map<string, InodeId>, flat: Flat, n: string)
    requires n in children
    requires n in flat || Bound(children, flat, children[n]) == map[]
    ensures RemovesOnly(Group(children, flat), children[n], n)
    ensures RemoveFromMap(Group(children, flat), children[n], n) == Group(children - {n}, flat - {n})
  {
    hide Group, RemoveFromMap, RemovesOnly;
    GroupRemove(children, flat, n);
    GroupIgnores(children, flat - {n}, n, children[n]);
  }

  lemma BindOther(children: map<string, InodeId>, flat: Flat, n: string, i: InodeId)
    requires n in children ==> children[n] == i
    requires n in flat ==> n in children
    ensures Group(children[n := i], flat) == Group(children, flat)
  {
    if n in children {
      assert children[n := i] == children;
    } else {
      GroupIgnores(children, flat, n, i);
    }
  }

  // ---------------------------------------------------------------------------------------------
  // The container as a value: bound names and two views by name

  datatype Views = Views(children: map<string, InodeId>, eff: Flat, pub: Flat) {
    /** The one map of records that users see; with `children`, name -> (inode, record). */
    function User(): Flat {
      pub + eff
    }

    /** A record in the effective view. */
    function Set(n: string, i: InodeId, r: Record): Views {
      Views(children[n := i], eff[n := r], pub)
    }

    /** A record in the publishable view. */
    function Load(n: string, i: InodeId, r: Record): Views {
      Views(children[n := i], eff, pub[n := r])
    }

    /** The effective record of a name, if any, moves to the publishable view. */
    function Publish(n: string): Views {
      if n in eff then Views(children, eff - {n}, pub[n := eff[n]]) else this
    }

    function Remove(n: string): Views {
      Views(children - {n}, eff - {n}, pub - {n})
    }

    predicate Shared(n: string)
      requires n in children
    {
      exists x :: x in children && x != n && children[x] == children[n]
    }

    predicate OnlyLeg(n: string) {
      n !in eff && n in pub && pub[n].hardlink
    }

    /** Children are exactly the names in either view. */
    predicate Covers() {
      children.Keys == eff.Keys + pub.Keys
    }

    /** No record object is there twice, neither within a view nor across the two. */
    predicate NoAliases() {
      && (forall n, x :: n in eff && x in pub ==> eff[n] != pub[x])
      && (forall n, x :: n in eff && x in eff && n != x ==> eff[n] != eff[x])
      && (forall n, x :: n in pub && x in pub && n != x ==> pub[n] != pub[x])
    }

    /** Effective never holds a hardlink, and names that share an inode are hardlinks. */
    predicate Good() {
      && Covers() && NoAliases()
      && INODE_ID_INVALID !in children.Values
      && (forall n :: n in eff ==> !eff[n].hardlink)
      && LegsShare()
    }

    predicate LegsShare() {
      forall n :: n in children && Shared(n) ==> OnlyLeg(n)
    }

    /** The name may be bound to the inode: it is not bound elsewhere, and only hardlinks share. */
    predicate CanBind(n: string, i: InodeId, hardlink: bool) {
      && i != INODE_ID_INVALID
      && (n in children ==> children[n] == i)
      && (forall x :: x in children && x != n && children[x] == i ==> hardlink && OnlyLeg(x))
    }

    predicate NewRecord(r: Record) {
      (forall x :: x in eff ==> eff[x] != r) && (forall x :: x in pub ==> pub[x] != r)
    }
  }

  lemma SetUser(v: Views, n: string, i: InodeId, r: Record)
    ensures v.Set(n, i, r).User() == v.User()[n := r]
    ensures n !in v.eff ==> v.Load(n, i, r).User() == v.User()[n := r]
  {
    AddUpdated(v.pub, v.eff, n, r);
  }

  lemma AddUpdated(a: Flat, b: Flat, n: string, r: Record)
    ensures a + b[n := r] == (a + b)[n := r]
    ensures n !in b ==> a[n := r] + b == (a + b)[n := r]
  {
  }

  lemma SetKeepsChildren(v: Views, n: string)
    requires n in v.children
    ensures v.children[n := v.children[n]] == v.children
  {
  }

  lemma SetGood(v: Views, n: string, i: InodeId, r: Record)
    requires v.Good() && v.CanBind(n, i, false) && v.NewRecord(r) && !r.hardlink
    ensures v.Set(n, i, r).Good()
  {
    hide Views.NoAliases, Views.LegsShare, Views.NewRecord;
    SetNoAliases(v, n, i, r);
    SetLegsShare(v, n, i, r);
  }

  lemma SetNoAliases(v: Views, n: string, i: InodeId, r: Record)
    requires v.NoAliases() && v.NewRecord(r)
    ensures v.Set(n, i, r).NoAliases()
    ensures n !in v.eff ==> v.Load(n, i, r).NoAliases()
  {
  }

  lemma SetLegsShare(v: Views, n: string, i: InodeId, r: Record)
    requires v.LegsShare() && v.CanBind(n, i, false)
    ensures v.Set(n, i, r).LegsShare()
  {
    var w := v.Set(n, i, r);
    forall x | x in w.children && w.Shared(x) ensures w.OnlyLeg(x) {
      var y :| y in w.children && y != x && w.children[y] == w.children[x];
      assert x != n && y != n;
      assert v.Shared(x);
    }
  }

  lemma LoadGood(v: Views, n: string, i: InodeId, r: Record)
    requires v.Good() && v.CanBind(n, i, r.hardlink) && v.NewRecord(r) && n !in v.eff
    ensures v.Load(n, i, r).Good()
  {
    hide Views.NoAliases, Views.LegsShare, Views.NewRecord;
    SetNoAliases(v, n, i, r);
    LoadLegsShare(v, n, i, r);
  }

  lemma LoadLegsShare(v: Views, n: string, i: InodeId, r: Record)
    requires v.LegsShare() && v.CanBind(n, i, r.hardlink) && n !in v.eff
    ensures v.Load(n, i, r).LegsShare()
  {
    var w := v.Load(n, i, r);
    forall x | x in w.children && w.Shared(x) ensures w.OnlyLeg(x) {
      var y :| y in w.children && y != x && w.children[y] == w.children[x];
      if x != n && y != n {
        assert v.Shared(x);
      }
    }
  }

  /** Publishing does not change what users see, and it publishes what they see. */
  lemma PublishKeepsUser(v: Views, n: string)
    requires v.Covers() && n in v.children
    ensures v.Publish(n).Covers() && n !in v.Publish(n).eff
    ensures v.Publish(n).User() == v.User() && v.Publish(n).children == v.children
    ensures v.Publish(n).pub == v.pub[n := v.User()[n]]
  {
  }

  lemma PublishGood(v: Views, n: string)
    requires v.Good() && n in v.children
    ensures v.Publish(n).Good()
  {
    hide Views.NoAliases, Views.LegsShare;
    PublishNoAliases(v, n);
    PublishLegsShare(v, n);
  }

  lemma PublishNoAliases(v: Views, n: string)
    requires v.NoAliases()
    ensures v.Publish(n).NoAliases()
  {
  }

  lemma PublishLegsShare(v: Views, n: string)
    requires v.LegsShare()
    ensures v.Publish(n).LegsShare()
  {
    var w := v.Publish(n);
    forall x | x in w.children && w.Shared(x) ensures w.OnlyLeg(x) {
      assert v.Shared(x);
    }
  }

  /** A hardlink passes through the effective view into the publishable one. */
  lemma SetPublishIsLoad(v: Views, n: string, i: InodeId, r: Record)
    requires n !in v.eff
    ensures v.Set(n, i, r).Publish(n) == v.Load(n, i, r)
  {
    assert v.eff[n := r] - {n} == v.eff;
  }

  lemma RemoveGood(v: Views, n: string)
    requires v.Good()
    ensures v.Remove(n).Good()
  {
    var w := v.Remove(n);
    forall x | x in w.children && w.Shared(x) ensures w.OnlyLeg(x) {
      assert v.Shared(x);
    }
  }

  lemma RemoveUser(v: Views, n: string)
    ensures v.Remove(n).User() == v.User() - {n}
  {
  }

  lemma RemoveChildren(v: Views, n: string)
    ensures v.Remove(n).children == v.children - {n}
  {
  }

  lemma RemoveAbsent(v: Views, n: string)
    requires v.Covers() && n !in v.children
    ensures v.Remove(n) == v
  {
    assert v.children - {n} == v.children && v.eff - {n} == v.eff && v.pub - {n} == v.pub;
  }

  /** The record that users saw is in no view once its name went. */
  lemma RemovedIsNew(v: Views, n: string)
    requires v.Covers() && v.NoAliases() && n in v.children
    ensures v.Remove(n).NewRecord(v.User()[n])
  {
  }

  lemma RemoveKeepsGood(v: Views, n: string)
    requires v.Good()
    ensures v.Remove(n).Good() && v.Remove(n).children == v.children - {n}
    ensures n !in v.children ==> v.Remove(n) == v
    ensures n in v.children ==> n in v.User() && v.Remove(n).NewRecord(v.User()[n])
  {
    RemoveGood(v, n);
    if n in v.children {
      RemovedIsNew(v, n);
    } else {
      RemoveAbsent(v, n);
    }
  }

  /** After its old name went, a child can be bound under a name that nobody has. */
  lemma RenameCanBind(v: Views, n: string, x: string)
    requires v.Good() && n in v.children && x !in v.children
    ensures v.Remove(n).CanBind(x, v.children[n], v.User()[n].hardlink)
    ensures x !in v.Remove(n).eff
  {
    forall y | y in v.children && y != n && v.children[y] == v.children[n]
      ensures v.User()[n].hardlink && v.Remove(n).OnlyLeg(y)
    {
      assert v.Shared(y) && v.Shared(n);
    }
  }

  lemma CopyCanBind(v: Views, n: string)
    requires v.Good() && n in v.children && !v.User()[n].hardlink
    ensures v.CanBind(n, v.children[n], false)
  {
    assert !v.Shared(n);
    forall x | x in v.children && x != n ensures v.children[x] != v.children[n] {
    }
  }

  /** No other name shows the record that users see under a name; nor does the publishable view. */
  lemma OnlyUserRecord(v: Views, n: string)
    requires v.Covers() && v.NoAliases() && n in v.children
    ensures forall x :: x in v.User() && x != n ==> v.User()[x] != v.User()[n]
    ensures n in v.eff ==> forall x :: x in v.pub ==> v.pub[x] != v.User()[n]
  {
  }

  lemma OneRecord(v: Views, w: Views, n: string, i: InodeId, r: Record)
    requires v == w || w == v.Set(n, i, r)
    ensures w.User().Keys == v.User().Keys + (if v == w then {} else {n})
    ensures forall x :: x in v.User() && x != n ==> w.User()[x] == v.User()[x]
  {
  }

  ghost function Renamed(v: Views, n: string, x: string): Views
    requires v.Covers() && n in v.children
  {
    var i, r := v.children[n], v.User()[n];
    if r.hardlink then v.Remove(n).Load(x, i, r) else v.Remove(n).Set(x, i, r)
  }

  /** Users see the same record under the new name; only hardlinks stay published. */
  lemma RenameMovesUser(v: Views, n: string, x: string)
    requires v.Good() && n in v.children && x !in v.children
    ensures Renamed(v, n, x).User() == (v.User() - {n})[x := v.User()[n]]
    ensures Renamed(v, n, x).children == (v.children - {n})[x := v.children[n]]
    ensures Renamed(v, n, x).pub
         == if v.User()[n].hardlink then (v.pub - {n})[x := v.User()[n]] else v.pub - {n}
  {
    RemoveUser(v, n);
    SetUser(v.Remove(n), x, v.children[n], v.User()[n]);
  }

  /** A name without an effective (publishable) record has no sibling with one at its inode. */
  lemma Removable(v: Views, n: string)
    requires v.Good() && n in v.children
    ensures n in v.eff || Bound(v.children, v.eff, v.children[n]) == map[]
    ensures n in v.pub || Bound(v.children, v.pub, v.children[n]) == map[]
  {
    if x :| x in Bound(v.children, v.eff, v.children[n]) && n !in v.eff {
      assert v.Shared(x);
    }
    if x :| x in Bound(v.children, v.pub, v.children[n]) && n !in v.pub {
      assert v.Shared(n);
    }
  }

  // ---------------------------------------------------------------------------------------------
  // The nested maps follow

  /** The nested maps are the two views, by inode. */
  predicate Arranges(effective: Nested, publishable: Nested, v: Views) {
    && v.Covers()
    && effective == Group(v.children, v.eff)
    && publishable == Group(v.children, v.pub)
  }

  lemma ArrangesSet(effective: Nested, publishable: Nested, v: Views, n: string, i: InodeId, r: Record)
    requires Arranges(effective, publishable, v)
    requires n in v.children ==> v.children[n] == i
    ensures Arranges(AddToMap(effective, i, n, r), publishable, v.Set(n, i, r))
  {
    GroupAdd(v.children, v.eff, n, i, r);
    BindOther(v.children, v.pub, n, i);
  }

  lemma ArrangesLoad(effective: Nested, publishable: Nested, v: Views, n: string, i: InodeId, r: Record)
    requires Arranges(effective, publishable, v)
    requires n in v.children ==> v.children[n] == i
    ensures Arranges(effective, AddToMap(publishable, i, n, r), v.Load(n, i, r))
  {
    GroupAdd(v.children, v.pub, n, i, r);
    BindOther(v.children, v.eff, n, i);
  }

  lemma ArrangesPublish(effective: Nested, publishable: Nested, v: Views, n: string)
    requires Arranges(effective, publishable, v) && n in v.children
    ensures n in v.eff <==> n in Names(effective, v.children[n])
    ensures n !in v.eff ==> v.Publish(n) == v
    ensures n in v.eff ==>
      var i := v.children[n];
      && RemovesOnly(effective, i, n)
      && Arranges(RemoveFromMap(effective, i, n), AddToMap(publishable, i, n, Names(effective, i)[n]), v.Publish(n))
  {
    GroupAt(v.children, v.eff, v.children[n]);
    assert n in v.eff <==> n in Names(effective, v.children[n]);
    if n in v.eff {
      assert Names(effective, v.children[n])[n] == v.eff[n];
      hide Group, AddToMap, RemoveFromMap, RemovesOnly;
      GroupAdd(v.children, v.pub, n, v.children[n], v.eff[n]);
      BindOther(v.children, v.pub[n := v.eff[n]], n, v.children[n]);
      GroupRemove(v.children, v.eff, n);
    }
  }

  lemma NothingToPublish(effective: Nested, publishable: Nested, v: Views, n: string)
    requires Arranges(effective, publishable, v) && n in v.children && n !in Names(effective, v.children[n])
    ensures v.Publish(n) == v
  {
    hide Arranges;
    ArrangesPublish(effective, publishable, v, n);
  }

  lemma PublishOne(effective: Nested, publishable: Nested, v: Views, n: string, r: Record)
    requires Arranges(effective, publishable, v) && n in v.children
    requires n in Names(effective, v.children[n]) && r == Names(effective, v.children[n])[n]
    ensures var i, w := v.children[n], v.Publish(n);
      && RemovesOnly(effective, i, n) && w.children == v.children
      && Arranges(RemoveFromMap(effective, i, n), AddToMap(publishable, i, n, r), w)
  {
    hide Arranges, AddToMap, RemovesOnly, RemoveFromMap, Names;
    ArrangesPublish(effective, publishable, v, n);
  }

  /** Removing a name trips no assertion in either map. */
  lemma ArrangesRemove(effective: Nested, publishable: Nested, v: Views, n: string)
    requires Arranges(effective, publishable, v) && v.Good() && n in v.children
    ensures RemovesOnly(effective, v.children[n], n) && RemovesOnly(publishable, v.children[n], n)
    ensures Arranges(RemoveFromMap(effective, v.children[n], n), RemoveFromMap(publishable, v.children[n], n),
                     v.Remove(n))
  {
    hide Bound, Group, RemoveFromMap, RemovesOnly, Views.Good;
    Removable(v, n);
    GroupDrop(v.children, v.pub, n);
    GroupDrop(v.children, v.eff, n);
  }

  /** Looking at the effective map of the inode first finds the user's record. */
  lemma LookupFinds(effective: Nested, publishable: Nested, v: Views, n: string)
    requires Arranges(effective, publishable, v) && v.Good() && n in v.children
    ensures n in Records(effective, publishable, v.children[n])
    ensures Records(effective, publishable, v.children[n])[n] == v.User()[n]
  {
    Removable(v, n);
    GroupAt(v.children, v.eff, v.children[n]);
    GroupAt(v.children, v.pub, v.children[n]);
  }

  /** The records of an inode: the effective ones if there are any, or else the publishable ones. */
  function Records(effective: Nested, publishable: Nested, i: InodeId): Flat {
    if i in effective then effective[i] else Names(publishable, i)
  }

  /** An inode's records are users' records of its names, and there are some if it has a name. */
  lemma RecordsOfInode(effective: Nested, publishable: Nested, v: Views, i: InodeId)
    requires Arranges(effective, publishable, v) && v.Good()
    ensures forall n :: n in Records(effective, publishable, i) ==>
      n in v.children && v.children[n] == i && Records(effective, publishable, i)[n] == v.User()[n]
    ensures Records(effective, publishable, i) == map[] <==> i !in v.children.Values
    ensures forall n :: n in Records(effective, publishable, i) ==> (n in v.eff <==> i in effective)
  {
    GroupAt(v.children, v.eff, i);
    GroupAt(v.children, v.pub, i);
    var records := Records(effective, publishable, i);
    forall n | n in records
      ensures n in v.children && v.children[n] == i && records[n] == v.User()[n]
      ensures n in v.eff <==> i in effective
    {
      if n in v.eff {
        assert n in Bound(v.children, v.eff, i);
      }
    }
    if n :| n in v.children && v.children[n] == i {
      LookupFinds(effective, publishable, v, n);
    }
  }

  // ---------------------------------------------------------------------------------------------
  // The container

  /** Records carry the names that they are filed under. */
  ghost predicate Named(v: Views)
    reads v.eff.Values, v.pub.Values
  {
    (forall n :: n in v.eff ==> v.eff[n].name == n) && (forall n :: n in v.pub ==> v.pub[n].name == n)
  }

  lemma NamedUpdate(v: Views, n: string, i: InodeId, r: Record)
    requires Named(v) && r.name == n
    ensures Named(v.Set(n, i, r)) && Named(v.Load(n, i, r))
  {
  }

  lemma NamedPublish(v: Views, n: string)
    requires Named(v)
    ensures Named(v.Publish(n))
  {
  }

  lemma NamedRemove(v: Views, n: string)
    requires Named(v)
    ensures Named(v.Remove(n))
  {
  }

  lemma NamedUser(v: Views, n: string)
    requires Named(v) && n in v.User()
    ensures v.User()[n].name == n
  {
  }

  /** Only a change of a name can undo it. */
  twostate lemma NamedStays(v: Views)
    requires old(Named(v))
    requires forall r :: r in v.eff.Values || r in v.pub.Values ==> r.name == old(r.name)
    ensures Named(v)
  {
  }

  class Container {
    var children: map<string, InodeId>
    var publishable: Nested
    var effective: Nested
    ghost var v: Views

    ghost predicate Linked()
      reads this
    {
      children == v.children && Arranges(effective, publishable, v)
    }

    ghost predicate Valid()
      reads this, v.eff.Values, v.pub.Values
    {
      Linked() && v.Good() && Named(v)
    }

    constructor ()
      ensures Valid() && v == Views(map[], map[], map[])
    {
      children, publishable, effective := map[], map[], map[];
      v := Views(map[], map[], map[]);
    }

    /** loadChild: a record from the datastore goes into the publishable view. */
    method LoadChild(inode: InodeId, r: Record)
      requires Valid() && v.NewRecord(r)
      requires r.name !in children && v.CanBind(r.name, inode, r.hardlink)
      modifies this
      ensures Valid() && v == old(v).Load(r.name, inode, r)
    {
      AbsentName(v, r.name);
      hide Arranges, Views.Good, Views.CanBind, Views.NewRecord, Views.User, Views.Load, Named;
      LoadGood(v, r.name, inode, r);
      PutPublishable(inode, r);
      NamedStays(old(v));
      NamedUpdate(old(v), r.name, inode, r);
    }

    method PutPublishable(inode: InodeId, r: Record)
      requires Linked() && (r.name in children ==> children[r.name] == inode)
      modifies this
      ensures Linked() && v == old(v).Load(r.name, inode, r)
    {
      hide Arranges, AddToMap;
      ArrangesLoad(effective, publishable, v, r.name, inode, r);
      publishable := AddToMap(publishable, inode, r.name, r);
      children := children[r.name := inode];
      v := v.Load(r.name, inode, r);
    }

    /** setRecord: the effective view; hardlinks are made publishable at once. */
    method SetRecord(inode: InodeId, r: Record)
      requires Valid() && v.NewRecord(r) && r.name !in v.eff && v.CanBind(r.name, inode, r.hardlink)
      modifies this
      ensures Valid()
      ensures v == if r.hardlink then old(v).Load(r.name, inode, r) else old(v).Set(r.name, inode, r)
    {
      assert r.name in children ==> children[r.name] == inode;
      hide Linked, Views.Good, Views.NewRecord, Views.User, Views.Publish, Views.Load, Views.Set, Views.CanBind, Named;
      if r.hardlink {
        LoadGood(v, r.name, inode, r);
        SetPublishIsLoad(v, r.name, inode, r);
      } else {
        SetGood(v, r.name, inode, r);
      }
      Put(inode, r);
      NamedStays(old(v));
      NamedUpdate(old(v), r.name, inode, r);
    }

    method Put(inode: InodeId, r: Record)
      requires Linked() && (r.name in children ==> children[r.name] == inode)
      modifies this
      ensures Linked()
      ensures v == if r.hardlink then old(v).Set(r.name, inode, r).Publish(r.name) else old(v).Set(r.name, inode, r)
    {
      hide Arranges, Views.Publish, Views.Set;
      PutEffective(inode, r);
      if r.hardlink {
        MoveToPublishable(r.name);
      }
    }

    method PutEffective(inode: InodeId, r: Record)
      requires Linked() && (r.name in children ==> children[r.name] == inode)
      modifies this
      ensures Linked() && v == old(v).Set(r.name, inode, r) && r.name in children
    {
      hide Arranges, AddToMap;
      ArrangesSet(effective, publishable, v, r.name, inode, r);
      effective := AddToMap(effective, inode, r.name, r);
      children := children[r.name := inode];
      v := v.Set(r.name, inode, r);
    }

    /** makePublishable: the effective record replaces the published one. */
    method MakePublishable(n: string)
      requires Valid() && n in children
      modifies this
      ensures Valid() && v == old(v).Publish(n) && v.User() == old(v.User())
    {
      hide Arranges, Views.Publish, Views.User, Views.Good, Named;
      PublishedStaysValid(v, n);
      MoveToPublishable(n);
      NamedStays(old(v));
      NamedPublish(old(v), n);
    }

    /** The same while a hardlink is in the effective view, as setRecord leaves it. */
    method MoveToPublishable(n: string)
      requires Linked() && n in children
      modifies this
      ensures Linked() && v == old(v).Publish(n)
    {
      hide Arranges, AddToMap, RemovesOnly, RemoveFromMap, Names, Views.Publish;
      var i := children[n];
      var names := Names(effective, i);
      if n !in names {
        NothingToPublish(effective, publishable, v, n);
        return;
      }
      PublishOne(effective, publishable, v, n, names[n]);
      assert RemovesOnly(effective, i, n);
      publishable := AddToMap(publishable, i, n, names[n]);
      effective := RemoveFromMap(effective, i, n);
      v := v.Publish(n);
    }

    /** The part of deleteChild that changes the maps. */
    method Detach(n: string)
      requires Linked() && v.Good() && n in children
      modifies this
      ensures Linked() && v == old(v).Remove(n)
    {
      hide Arranges, RemovesOnly, RemoveFromMap, Views.Good, Views.Remove;
      ArrangesRemove(effective, publishable, v, n);
      RemoveChildren(v, n);
      var i := children[n];
      assert RemovesOnly(publishable, i, n);
      publishable := RemoveFromMap(publishable, i, n);
      assert RemovesOnly(effective, i, n);
      effective := RemoveFromMap(effective, i, n);
      children := children - {n};
      v := v.Remove(n);
    }

    /** deleteChild: the name goes from both views; users' record is handed back. */
    method DeleteChild(n: string) returns (r: Option<Record>)
      requires Valid()
      modifies this
      ensures Valid() && v == old(v).Remove(n)
      ensures r == if n in old(children) then Some(old(v).User()[n]) else None
      ensures r.Some? ==> v.NewRecord(r.value)
    {
      hide Arranges, Views.Good, Views.User, Views.NewRecord, Views.Remove, Named;
      RemoveKeepsGood(v, n);
      r := RecordByName(n);
      if n in children {
        Detach(n);
      }
      NamedStays(old(v));
      NamedRemove(old(v), n);
    }

    /** _recordByName: what users see under the name. */
    method RecordByName(n: string) returns (r: Option<Record>)
      requires Linked() && v.Good()
      ensures n in children ==> n in v.User()
      ensures r == if n in children then Some(v.User()[n]) else None
    {
      var i := if n in children then children[n] else INODE_ID_INVALID;
      var records := Records(effective, publishable, i);
      r := if n in records then Some(records[n]) else None;
      if n in children {
        LookupFinds(effective, publishable, v, n);
      } else {
        RecordsOfInode(effective, publishable, v, i);
      }
    }

    /** records: the map of all that users see. */
    method AllRecords() returns (records: Flat)
      requires Linked() && v.Good()
      ensures records == v.User()
    {
      records := map[];
      var left := children.Keys;
      while left != {}
        invariant left <= children.Keys && records.Keys == children.Keys - left
        invariant forall n :: n in records ==> records[n] == v.User()[n]
      {
        var n :| n in left;
        LookupFinds(effective, publishable, v, n);
        var i := children[n];
        records := records[n := Records(effective, publishable, i)[n]];
        left := left - {n};
      }
    }

    /** renameChild: the child's record, renamed, goes back in under the new name; a hardlink gets a new
        creation time. */
    method RenameChild(oldName: string, newName: string, now: nat)
      requires Valid() && oldName != newName && newName !in children
      modifies this, if oldName in v.children && oldName in v.User() then {v.User()[oldName]} else {}
      ensures Valid()
      ensures oldName !in old(children) ==> v == old(v)
      ensures oldName in old(children) ==>
        && v == Renamed(old(v), oldName, newName)
        && old(v).User()[oldName].name == newName
        && var r, was := old(v).User()[oldName], old(v.User()[oldName].data);
           r.data == was.(created := if r.hardlink then now else was.created)
    {
      var inode := if oldName in children then children[oldName] else INODE_ID_INVALID;
      hide Arranges, Views.Good, Views.NewRecord, Views.CanBind, Views.User, Views.Remove, Views.Set, Views.Load, Named;
      if oldName in children {
        RenameCanBind(v, oldName, newName);
      } else {
        RemoveKeepsGood(v, oldName);
      }
      var record := DeleteChild(oldName);
      if record.None? {
        return;
      }
      SetRenamed(inode, record.value, newName, now);
    }

    /** The end of renameChild: a record that no view has any more. */
    method SetRenamed(inode: InodeId, r: Record, newName: string, now: nat)
      requires Valid() && v.NewRecord(r) && newName !in v.eff && v.CanBind(newName, inode, r.hardlink)
      modifies this, r
      ensures Valid() && r.name == newName
      ensures r.data == old(r.data).(created := if r.hardlink then now else old(r.data.created))
      ensures v == if r.hardlink then old(v).Load(newName, inode, r) else old(v).Set(newName, inode, r)
    {
      hide Arranges, Views.Good, Views.NewRecord, Views.CanBind, Views.User, Views.Remove, Views.Set, Views.Load, Named;
      NotShown(v, r);
      label before:
      r.name := newName;
      if r.hardlink {
        r.data := r.data.(created := now);
      }
      NamedStays@before(v);
      SetRecord(inode, r);
    }

    /** setID: the record that users see gets the key and becomes publishable. */
    method SetID(n: string, key: nat)
      requires Valid() && n in children && n in v.User()
      modifies this, {v.User()[n]}`data
      ensures Valid() && v == old(v).Publish(n)
      ensures v.User()[n] == old(v.User()[n]) && v.User()[n].data == old(v.User()[n].data).(id := key)
    {
      var record := RecordByName(n);
      hide Arranges, Views.Good, Views.User, Views.Publish, Named;
      label before:
      record.value.data := record.value.data.(id := key);
      NamedStays@before(v);
      MakePublishable(n);
    }

    /** The record to change for an inode: users' record of one of its names, in the effective view
        unless it is a hardlink; a published record is copied first. */
    method Modifiable(inode: InodeId) returns (n: Option<string>, r: Record?)
      requires Valid()
      modifies this
      ensures Valid() && children == old(children) && v.pub == old(v.pub)
      ensures n.None? <==> inode !in children.Values
      ensures n.None? ==> v == old(v)
      ensures n.Some? ==>
        && n.value in children && children[n.value] == inode && n.value in old(v).User() && n.value in v.User()
        && r != null && v.User()[n.value] == r && r.name == n.value
        && r.hardlink == old(v).User()[n.value].hardlink && r.data == old(v.User()[n.value].data)
        && (r.hardlink || n.value in v.eff)
        && (v == old(v) || (fresh(r) && v == old(v).Set(n.value, inode, r)))
    {
      RecordsOfInode(effective, publishable, v, inode);
      hide Arranges, Views.Good;
      var records := Records(effective, publishable, inode);
      if records == map[] {
        return None, null;
      }
      var x :| x in records;
      n, r := Some(x), records[x];
      NamedUser(v, x);
      hide Records, Named, Views.Set, Views.User;
      if inode !in effective && !r.hardlink {
        r := CopyToEffective(x, r);
      }
    }

    /** A copy of a published record goes into the effective view. */
    method CopyToEffective(n: string, r: Record) returns (copy: Record)
      requires Valid() && n in children && n !in v.eff && r == v.User()[n] && r.name == n && !r.hardlink
      modifies this
      ensures Valid() && fresh(copy) && copy.name == n && copy.data == r.data && !copy.hardlink
      ensures v == old(v).Set(n, old(children[n]), copy)
      ensures children == old(children) && v.pub == old(v.pub) && n in v.eff
      ensures n in v.User() && v.User()[n] == copy
    {
      CopyCanBind(v, n);
      SetKeepsChildren(v, n);
      hide Arranges, Views.Good, Views.CanBind, Named;
      copy := new Record(n, r.data, false);
      SetRecord(children[n], copy);
    }

    /** modifyChildWithFunc: users see the change under one name; what is published changes only for
        a hardlink. */
    method ModifyChildWithFunc(inode: InodeId, change: Attributes -> Attributes) returns (n: Option<string>)
      requires Valid()
      modifies this, v.User().Values`data
      ensures Valid() && children == old(children) && v.pub == old(v.pub)
      ensures n.None? <==> inode !in children.Values
      ensures n.None? ==> v == old(v) && unchanged(v.User().Values)
      ensures n.Some? ==>
        && n.value in children && children[n.value] == inode
        && v.User().Keys == old(v.User().Keys)
        && v.User()[n.value].data == change(old(v.User()[n.value].data))
        && (forall x :: x in old(v.User()) && x != n.value ==>
              v.User()[x] == old(v.User())[x] && v.User()[x].data == old(v.User()[x].data))
      ensures n.Some? && !old(v.User()[n.value].hardlink) ==>
        forall x :: x in v.pub ==> v.pub[x].data == old(v.pub[x].data)
    {
      hide Arranges, Views.Good, Views.Set, Named;
      var r: Record?;
      n, r := Modifiable(inode);
      hide Views.User;
      if n.Some? {
        UserRecord(v, n.value);
        OneRecord(old(v), v, n.value, inode, r);
        label before:
        r.data := change(r.data);
        NamedStays@before(v);
      }
    }
  }

  lemma AbsentName(v: Views, n: string)
    requires v.Covers() && n !in v.children
    ensures n !in v.eff && n !in v.pub
  {
  }

  lemma PublishedStaysValid(v: Views, n: string)
    requires v.Good() && n in v.children
    ensures v.Publish(n).User() == v.User() && n in v.User()
    ensures v.Publish(n).Good()
  {
    PublishKeepsUser(v, n);
    PublishGood(v, n);
  }

  lemma NotShown(v: Views, r: Record)
    requires v.NewRecord(r)
    ensures r !in v.eff.Values && r !in v.pub.Values
  {
  }

  lemma UserRecord(v: Views, n: string)
    requires v.Good() && n in v.children
    ensures n in v.User()
    ensures forall x :: x in v.User() && x != n ==> v.User()[x] != v.User()[n]
    ensures n in v.eff ==> forall x :: x in v.pub ==> v.pub[x] != v.User()[n]
  {
    OnlyUserRecord(v, n);
  }
}
