/** Directories as chains of blocks (daemon/directory.go:55-75, 381-430, datastore.go:311-392). */
module DirectoryPublish {
  import opened Basics
  import opened Objects
  import opened FileContent
  import opened DataStore

  // ---------------------------------------------------------------------------------------------
  // The order of records: by file id, then by name

  /** Strict lexicographic order, as Go compares strings. */
  predicate NameBefore(a: string, b: string)
    decreases |a|
  {
    b != [] && (a == [] || a[0] < b[0] || (a[0] == b[0] && NameBefore(a[1..], b[1..])))
  }

  predicate Before(a: DirEntry, b: DirEntry) {
    if a.record.fileId == b.record.fileId then NameBefore(a.name, b.name) else a.record.fileId < b.record.fileId
  }

  lemma {:induction false} NameTrichotomy(a: string, b: string)
    ensures a == b || NameBefore(a, b) || NameBefore(b, a)
    ensures !(NameBefore(a, b) && NameBefore(b, a)) && !NameBefore(a, a)
    decreases |a|
  {
    if a != [] {
      NameTrichotomy(a[1..], a[1..]);
      if b != [] {
        NameTrichotomy(a[1..], b[1..]);
        if a[0] == b[0] && a[1..] == b[1..] {
          assert a == [a[0]] + a[1..] && b == [b[0]] + b[1..];
        }
      }
    }
  }

  lemma {:induction false} NameTransitive(a: string, b: string, c: string)
    requires NameBefore(a, b) && NameBefore(b, c)
    ensures NameBefore(a, c)
    decreases |a|
  {
    if a != [] && a[0] == b[0] && b[0] == c[0] {
      NameTransitive(a[1..], b[1..], c[1..]);
    }
  }

  /** Told without recursion: a proper beginning, or smaller where the two first differ. */
  ghost predicate LexicallyBefore(a: string, b: string) {
    exists k :: 0 <= k <= |a| && k < |b| && a[..k] == b[..k] && (k == |a| || a[k] < b[k])
  }

  lemma {:induction false} NameBeforeIsLexical(a: string, b: string)
    ensures NameBefore(a, b) <==> LexicallyBefore(a, b)
    decreases |a|
  {
    if NameBefore(a, b) {
      if a == [] || a[0] < b[0] {
        assert a[..0] == b[..0];
      } else {
        var x, y := a[1..], b[1..];
        NameBeforeIsLexical(x, y);
        var k :| 0 <= k <= |x| && k < |y| && x[..k] == y[..k] && (k == |x| || x[k] < y[k]);
        assert a[..k + 1] == [a[0]] + x[..k] && b[..k + 1] == [b[0]] + y[..k];
      }
    }
    if LexicallyBefore(a, b) {
      var k :| 0 <= k <= |a| && k < |b| && a[..k] == b[..k] && (k == |a| || a[k] < b[k]);
      if k > 0 {
        assert a[0] == a[..k][0] == b[..k][0] == b[0];
        assert a[1..][..k - 1] == a[..k][1..] && b[1..][..k - 1] == b[..k][1..];
        assert LexicallyBefore(a[1..], b[1..]);
        NameBeforeIsLexical(a[1..], b[1..]);
      }
    }
  }

  lemma BeforeTransitive(a: DirEntry, b: DirEntry, c: DirEntry)
    requires Before(a, b) && Before(b, c)
    ensures Before(a, c)
  {
    if a.record.fileId == b.record.fileId == c.record.fileId {
      NameTransitive(a.name, b.name, c.name);
    }
  }

  predicate DistinctNames(s: seq<DirEntry>) {
    forall i, j :: 0 <= i < j < |s| ==> s[i].name != s[j].name
  }

  predicate Sorted(s: seq<DirEntry>) {
    forall i, j :: 0 <= i < j < |s| ==> Before(s[i], s[j])
  }

  // ---------------------------------------------------------------------------------------------
  // Sorting

  function Insert(e: DirEntry, s: seq<DirEntry>): (r: seq<DirEntry>)
    ensures multiset(r) == multiset(s) + multiset{e}
  {
    if s == [] || Before(e, s[0]) then
      assert [e] + s == [e] + s;
      [e] + s
    else
      assert s == [s[0]] + s[1..];
      [s[0]] + Insert(e, s[1..])
  }

  /** SortDirectoryRecords; insertion stands for the library's sort. */
  function Sort(s: seq<DirEntry>): (r: seq<DirEntry>)
    ensures multiset(r) == multiset(s)
  {
    if s == [] then []
    else
      assert s == [s[0]] + s[1..];
      Insert(s[0], Sort(s[1..]))
  }

  lemma {:induction false} InsertSorts(e: DirEntry, s: seq<DirEntry>)
    requires Sorted(s) && forall x :: x in s ==> x.name != e.name
    ensures Sorted(Insert(e, s))
  {
    if s == [] {
      return;
    }
    SortedTail(s);
    if Before(e, s[0]) {
      BeforeAll(e, s);
      SortedCons(e, s);
    } else {
      var r := Insert(e, s[1..]);
      InsertSorts(e, s[1..]);
      NameTrichotomy(e.name, s[0].name);
      hide Sorted, Before;
      forall x | x in r ensures Before(s[0], x) {
        assert x in multiset(r);
        assert x == e || x in s[1..];
      }
      SortedCons(s[0], r);
    }
  }

  lemma SortedTail(s: seq<DirEntry>)
    requires Sorted(s) && s != []
    ensures Sorted(s[1..]) && (forall x :: x in s[1..] ==> Before(s[0], x))
  {
  }

  lemma SortedCons(e: DirEntry, s: seq<DirEntry>)
    requires Sorted(s) && forall x :: x in s ==> Before(e, x)
    ensures Sorted([e] + s)
  {
    hide Before;
  }

  lemma BeforeAll(e: DirEntry, s: seq<DirEntry>)
    requires Sorted(s) && s != [] && Before(e, s[0])
    ensures forall x :: x in s ==> Before(e, x)
  {
    SortedTail(s);
    assert s == [s[0]] + s[1..];
    hide Before, Sorted;
    forall x | x in s ensures Before(e, x) {
      if x != s[0] {
        BeforeTransitive(e, s[0], x);
      }
    }
  }

  lemma {:induction false} SortSorts(s: seq<DirEntry>)
    requires DistinctNames(s)
    ensures Sorted(Sort(s))
  {
    if s != [] {
      SortSorts(s[1..]);
      forall x | x in Sort(s[1..]) ensures x.name != s[0].name {
        assert x in multiset(Sort(s[1..]));
        assert x in s[1..];
      }
      InsertSorts(s[0], Sort(s[1..]));
    }
  }

  /** So published records come in the order of their file ids, those of one file by name. */
  lemma SortOrders(s: seq<DirEntry>, i: nat, j: nat)
    requires DistinctNames(s) && i < j < |Sort(s)|
    ensures var a, b := Sort(s)[i], Sort(s)[j];
      a.record.fileId < b.record.fileId || (a.record.fileId == b.record.fileId && LexicallyBefore(a.name, b.name))
  {
    SortSorts(s);
    assert Before(Sort(s)[i], Sort(s)[j]);
    NameBeforeIsLexical(Sort(s)[i].name, Sort(s)[j].name);
  }

  lemma SameHead(a: seq<DirEntry>, b: seq<DirEntry>)
    requires Sorted(a) && Sorted(b) && a != [] && b != [] && a[0] in b && b[0] in a
    ensures a[0] == b[0]
  {
    if a[0] != b[0] {
      assert Before(b[0], a[0]) && Before(a[0], b[0]);
      NameTrichotomy(a[0].name, b[0].name);
    }
  }

  /** There is only one sorted arrangement of given records. */
  lemma {:induction false} SortedUnique(a: seq<DirEntry>, b: seq<DirEntry>)
    requires Sorted(a) && Sorted(b) && multiset(a) == multiset(b)
    ensures a == b
  {
    hide Sorted, Before;
    assert |a| == |multiset(a)| == |multiset(b)| == |b|;
    if a != [] {
      assert a[0] in multiset(b) && b[0] in multiset(a);
      SameHead(a, b);
      SortedTail(a);
      SortedTail(b);
      TailMultiset(a);
      TailMultiset(b);
      SortedUnique(a[1..], b[1..]);
      assert a == [a[0]] + a[1..] && b == [b[0]] + b[1..];
    }
  }

  lemma TailMultiset(a: seq<DirEntry>)
    requires a != []
    ensures multiset(a[1..]) == multiset(a) - multiset{a[0]}
  {
    assert a == [a[0]] + a[1..];
  }

  // ---------------------------------------------------------------------------------------------
  // Publishing

  /** The key of the constant empty directory, which ends every chain. */
  function EmptyDirKey(hash: Block -> StoreKey, max: nat): StoreKey {
    hash(DirectoryBlock(max, [], 0))
  }

  /** The key after the first `done` records have gone out in full blocks. */
  function KeyAt(hash: Block -> StoreKey, max: nat, s: seq<DirEntry>, done: nat): StoreKey
    requires 0 < max && done <= |s|
    decreases done
  {
    if done < max then EmptyDirKey(hash, max)
    else hash(BlockAt(hash, max, s, done))
  }

  /** The full block that ends at record `done`. */
  function BlockAt(hash: Block -> StoreKey, max: nat, s: seq<DirEntry>, done: nat): Block
    requires 0 < max <= done <= |s|
    decreases done, 0
  {
    DirectoryBlock(max, s[done - max..done], KeyAt(hash, max, s, done - max))
  }

  /** Where the last block of n records starts: the largest multiple of max below n. */
  function LastStart(n: nat, max: nat): (k: nat)
    requires 0 < max
    ensures n == 0 ==> k == 0
    ensures n > 0 ==> k < n <= k + max
    decreases n
  {
    if n <= max then 0 else LastStart(n - max, max) + max
  }

  /** The block that a directory's key names: the last records, linked to the earlier ones. */
  function HeadBlock(hash: Block -> StoreKey, max: nat, s: seq<DirEntry>): Block
    requires 0 < max
  {
    var k := LastStart(|s|, max);
    DirectoryBlock(|s| - k, s[k..], KeyAt(hash, max, s, k))
  }

  /** The store holds every full block up to `done`. */
  ghost predicate ChainStored(stored: map<StoreKey, Block>, hash: Block -> StoreKey, max: nat,
                              s: seq<DirEntry>, done: nat)
    requires 0 < max && done <= |s|
    decreases done
  {
    done >= max ==>
      && KeyAt(hash, max, s, done) in stored
      && stored[KeyAt(hash, max, s, done)] == BlockAt(hash, max, s, done)
      && ChainStored(stored, hash, max, s, done - max)
  }

  lemma {:induction false} ChainStaysStored(before: map<StoreKey, Block>, after: map<StoreKey, Block>,
                                            hash: Block -> StoreKey, max: nat, s: seq<DirEntry>, done: nat)
    requires 0 < max && done <= |s| && Grows(before, after) && ChainStored(before, hash, max, s, done)
    ensures ChainStored(after, hash, max, s, done)
    decreases done
  {
    if done >= max {
      ChainStaysStored(before, after, hash, max, s, done - max);
    }
  }

  lemma NothingChained(stored: map<StoreKey, Block>, hash: Block -> StoreKey, max: nat, s: seq<DirEntry>)
    requires 0 < max
    ensures ChainStored(stored, hash, max, s, 0)
  {
  }

  lemma ChainExtended(before: map<StoreKey, Block>, after: map<StoreKey, Block>,
                      hash: Block -> StoreKey, max: nat, s: seq<DirEntry>, done: nat)
    requires 0 < max <= done <= |s| && Grows(before, after) && ChainStored(before, hash, max, s, done - max)
    requires KeyAt(hash, max, s, done) in after && after[KeyAt(hash, max, s, done)] == BlockAt(hash, max, s, done)
    ensures ChainStored(after, hash, max, s, done)
  {
    ChainStaysStored(before, after, hash, max, s, done - max);
  }

  lemma {:induction false} StartsAreSteps(n: nat, max: nat, done: nat)
    requires 0 < max && IsStart(done, max) && done < n <= done + max
    ensures LastStart(n, max) == done
    decreases n
  {
    if n > max {
      StartsAreSteps(n - max, max, done - max);
    }
  }

  /** A multiple of max. */
  predicate IsStart(done: nat, max: nat)
    requires 0 < max
    decreases done
  {
    done == 0 || (done >= max && IsStart(done - max, max))
  }

  /** NewDirectoryEntry: how many records a new block has room for, and how many remain. */
  function NewDirectoryEntry(entryCapacity: nat, max: nat): (r: (nat, nat))
    ensures r.0 + r.1 == entryCapacity && r.1 <= max && (r.0 > 0 ==> r.1 == max)
  {
    if entryCapacity > max then (entryCapacity - max, max) else (0, entryCapacity)
  }

  /** The state at the top of publishDirectoryRecords's loop. */
  ghost predicate Filling(hash: Block -> StoreKey, max: nat, s: seq<DirEntry>, i: nat, done: nat, layer: seq<DirEntry>,
                          capacity: nat, remain: nat, key: StoreKey)
    requires 0 < max
  {
    && done <= i <= |s| && i <= done + max
    && IsStart(done, max) && (|s| > 0 ==> done < |s|)
    && layer == s[done..i] && key == KeyAt(hash, max, s, done)
    && capacity + remain == |s| - done && capacity == Min(max, |s| - done)
  }

  /** SetEntry stays within the block. */
  lemma FillingAppend(hash: Block -> StoreKey, max: nat, s: seq<DirEntry>, i: nat, done: nat, layer: seq<DirEntry>,
                      capacity: nat, remain: nat, key: StoreKey)
    requires 0 < max && Filling(hash, max, s, i, done, layer, capacity, remain, key)
    requires i < |s| && |layer| < max
    ensures |layer| < capacity
    ensures Filling(hash, max, s, i + 1, done, layer + [s[i]], capacity, remain, key)
  {
  }

  lemma FillingFlush(hash: Block -> StoreKey, max: nat, s: seq<DirEntry>, i: nat, done: nat, layer: seq<DirEntry>,
                     capacity: nat, remain: nat, key: StoreKey)
    requires 0 < max && Filling(hash, max, s, i, done, layer, capacity, remain, key)
    requires i < |s| && |layer| == max
    ensures i >= max && i - max == done && DirectoryBlock(capacity, layer, key) == BlockAt(hash, max, s, i)
    ensures var room := NewDirectoryEntry(remain, max);
            Filling(hash, max, s, i, i, [], room.1, room.0, KeyAt(hash, max, s, i))
  {
    assert s[i..i] == [];
  }

  lemma FillingEnd(hash: Block -> StoreKey, max: nat, s: seq<DirEntry>, done: nat, layer: seq<DirEntry>,
                   capacity: nat, remain: nat, key: StoreKey)
    requires 0 < max && Filling(hash, max, s, |s|, done, layer, capacity, remain, key)
    ensures done == LastStart(|s|, max) && DirectoryBlock(capacity, layer, key) == HeadBlock(hash, max, s)
  {
    if |s| > 0 {
      StartsAreSteps(|s|, max, done);
    }
    assert s[done..|s|] == s[done..];
  }

  /** A full block goes out, and a new one is begun. */
  method StoreLayer(store: Store, max: nat, layer: seq<DirEntry>, capacity: nat, ghost remain: nat, next: StoreKey,
                    ghost s: seq<DirEntry>, ghost i: nat, ghost done: nat) returns (key: StoreKey)
    requires store.Valid() && 0 < max && |layer| == max && done <= |s| && i < |s|
    requires Filling(store.hash, max, s, i, done, layer, capacity, remain, next)
    requires ChainStored(store.blocks, store.hash, max, s, done)
    modifies store
    ensures store.Valid() && Grows(old(store.blocks), store.blocks)
    ensures ChainStored(store.blocks, store.hash, max, s, i)
    ensures var room := NewDirectoryEntry(remain, max); Filling(store.hash, max, s, i, i, [], room.1, room.0, key)
  {
    hide Filling, ChainStored, BlockAt;
    FillingFlush(store.hash, max, s, i, done, layer, capacity, remain, next);
    ghost var before := store.blocks;
    key := store.Set(DirectoryBlock(capacity, layer, next));
    ChainExtended(before, store.blocks, store.hash, max, s, i);
  }

  /** publishDirectoryRecords.  SetEntry stays within the block that NewDirectoryEntry made. */
  method PublishDirectoryRecords(store: Store, records: seq<DirEntry>, max: nat) returns (key: StoreKey)
    requires store.Valid() && 0 < max
    modifies store
    ensures store.Valid() && Grows(old(store.blocks), store.blocks)
    ensures PublishedAt(store.blocks, store.hash, max, Sort(records), key)
  {
    hide Filling, HeadBlock, ChainStored, Sort, BlockAt;
    key := EmptyDirKey(store.hash, max);
    var room := NewDirectoryEntry(|records|, max);
    var remain, capacity := room.0, room.1;
    var layer: seq<DirEntry> := [];
    var s := Sort(records);
    assert |s| == |multiset(s)| == |multiset(records)| == |records|;
    FillingStart(store.hash, max, s);
    NothingChained(store.blocks, store.hash, max, s);
    ghost var done: nat := 0;
    var i := 0;
    while i < |s|
      invariant 0 <= i <= |s| && done <= |s| && |layer| <= max
      invariant store.Valid() && Grows(old(store.blocks), store.blocks)
      invariant Filling(store.hash, max, s, i, done, layer, capacity, remain, key)
      invariant ChainStored(store.blocks, store.hash, max, s, done)
    {
      if |layer| == max {
        key := StoreLayer(store, max, layer, capacity, remain, key, s, i, done);
        room := NewDirectoryEntry(remain, max);
        remain, capacity, layer, done := room.0, room.1, [], i;
      }
      FillingAppend(store.hash, max, s, i, done, layer, capacity, remain, key);
      assert |layer| < capacity;
      layer := layer + [s[i]];
      i := i + 1;
    }
    FillingEnd(store.hash, max, s, done, layer, capacity, remain, key);
    ghost var before := store.blocks;
    key := store.Set(DirectoryBlock(capacity, layer, key));
    ChainStaysStored(before, store.blocks, store.hash, max, s, done);
  }

  lemma FillingStart(hash: Block -> StoreKey, max: nat, s: seq<DirEntry>)
    requires 0 < max
    ensures var room := NewDirectoryEntry(|s|, max);
            Filling(hash, max, s, 0, 0, [], room.1, room.0, EmptyDirKey(hash, max))
  {
    assert s[0..0] == [];
  }

  /** The key names the whole chain of the (sorted) records s. */
  ghost predicate PublishedAt(stored: map<StoreKey, Block>, hash: Block -> StoreKey, max: nat,
                              s: seq<DirEntry>, key: StoreKey)
    requires 0 < max
  {
    && key == hash(HeadBlock(hash, max, s)) && key in stored && stored[key] == HeadBlock(hash, max, s)
    && ChainStored(stored, hash, max, s, LastStart(|s|, max))
  }

  // ---------------------------------------------------------------------------------------------
  // Reading back

  predicate HasNext(b: Block, hash: Block -> StoreKey, max: nat)
    requires b.DirectoryBlock?
  {
    b.next != EmptyDirKey(hash, max) && b.entries != []
  }

  /** What the full blocks up to `done` hold, in the order in which they are read. */
  function ChainEntries(max: nat, s: seq<DirEntry>, done: nat): seq<DirEntry>
    requires 0 < max && done <= |s|
    decreases done
  {
    if done < max then [] else s[done - max..done] + ChainEntries(max, s, done - max)
  }

  lemma {:induction false} ChainHoldsAll(max: nat, s: seq<DirEntry>, done: nat)
    requires 0 < max && done <= |s| && IsStart(done, max)
    ensures multiset(ChainEntries(max, s, done)) == multiset(s[..done])
    decreases done
  {
    if done > 0 {
      ChainHoldsAll(max, s, done - max);
      hide IsStart;
      SliceFirst(s, done - max, done, ChainEntries(max, s, done - max));
    } else {
      assert s[..done] == [];
    }
  }

  lemma SliceFirst(s: seq<DirEntry>, a: nat, b: nat, rest: seq<DirEntry>)
    requires a <= b <= |s| && multiset(rest) == multiset(s[..a])
    ensures multiset(s[a..b] + rest) == multiset(s[..b])
  {
    var x, y := s[a..b], s[..a];
    MultisetJoin(x, rest);
    MultisetJoin(y, x);
    assert s[..b] == y + x;
  }

  lemma {:induction false} LastStartIsStart(n: nat, max: nat)
    requires 0 < max
    ensures IsStart(LastStart(n, max), max)
    decreases n
  {
    if n > max {
      LastStartIsStart(n - max, max);
    }
  }

  /** Only the end of a chain has the empty directory's key as its next one. */
  lemma NextOfChain(hash: Block -> StoreKey, max: nat, s: seq<DirEntry>, done: nat)
    requires Injective(hash) && 0 < max && done <= |s| && IsStart(done, max)
    ensures KeyAt(hash, max, s, done) == EmptyDirKey(hash, max) <==> done == 0
  {
    if done > 0 {
      assert BlockAt(hash, max, s, done).entries != [];
    }
  }

  /** foreachDentry and loadRecords: follow the chain from a key and collect the entries. */
  method ReadDirectory(store: Store, key: StoreKey, max: nat, ghost s: seq<DirEntry>) returns (entries: seq<DirEntry>)
    requires store.Valid() && 0 < max && PublishedAt(store.blocks, store.hash, max, s, key)
    ensures multiset(entries) == multiset(s)
  {
    ghost var start := LastStart(|s|, max);
    ghost var done: nat := start;
    LastStartIsStart(|s|, max);
    var layer := store.blocks[key];
    entries := layer.entries;
    ghost var all := s[start..] + ChainEntries(max, s, start);
    while HasNext(layer, store.hash, max)
      invariant done <= |s| && IsStart(done, max)
      invariant layer.DirectoryBlock? && layer.next == KeyAt(store.hash, max, s, done)
      invariant layer.entries == [] ==> done == 0
      invariant ChainStored(store.blocks, store.hash, max, s, done)
      invariant entries + ChainEntries(max, s, done) == all
      decreases done
    {
      NextOfChain(store.hash, max, s, done);
      assert done >= max;
      layer := store.blocks[layer.next];
      assert layer == BlockAt(store.hash, max, s, done);
      AppendLayer(entries, layer.entries, ChainEntries(max, s, done - max));
      entries := entries + layer.entries;
      done := done - max;
    }
    NextOfChain(store.hash, max, s, done);
    assert entries + [] == entries;
    AllEntries(max, s);
  }

  lemma MultisetJoin(a: seq<DirEntry>, b: seq<DirEntry>)
    ensures multiset(a + b) == multiset(a) + multiset(b)
  {
  }

  lemma AppendLayer(a: seq<DirEntry>, b: seq<DirEntry>, c: seq<DirEntry>)
    ensures a + (b + c) == (a + b) + c
  {
  }

  lemma AllEntries(max: nat, s: seq<DirEntry>)
    requires 0 < max
    ensures var start := LastStart(|s|, max);
            multiset(s[start..] + ChainEntries(max, s, start)) == multiset(s)
  {
    var start := LastStart(|s|, max);
    LastStartIsStart(|s|, max);
    ChainHoldsAll(max, s, start);
    assert s == s[..start] + s[start..];
    MultisetJoin(s[..start], s[start..]);
    MultisetJoin(s[start..], ChainEntries(max, s, start));
  }

  /** Publishing is canonical: the key depends on the set of records and not on their order. */
  lemma PublishIsCanonical(hash: Block -> StoreKey, max: nat, a: seq<DirEntry>, b: seq<DirEntry>)
    requires 0 < max && DistinctNames(a) && DistinctNames(b) && multiset(a) == multiset(b)
    ensures hash(HeadBlock(hash, max, Sort(a))) == hash(HeadBlock(hash, max, Sort(b)))
  {
    SortSorts(a);
    SortSorts(b);
    SortedUnique(Sort(a), Sort(b));
  }

  /** And it is faithful: equal keys come from the same records. */
  lemma {:induction false} SameKeySameRecords(hash: Block -> StoreKey, max: nat, a: seq<DirEntry>, b: seq<DirEntry>)
    requires 0 < max && Injective(hash)
    requires hash(HeadBlock(hash, max, Sort(a))) == hash(HeadBlock(hash, max, Sort(b)))
    ensures multiset(a) == multiset(b)
  {
    var s, t := Sort(a), Sort(b);
    assert multiset(s) == multiset(a) && multiset(t) == multiset(b);
    hide Sort;
    SameHeadBlock(hash, max, s, t);
  }

  lemma SameHeadBlock(hash: Block -> StoreKey, max: nat, s: seq<DirEntry>, t: seq<DirEntry>)
    requires 0 < max && Injective(hash)
    requires hash(HeadBlock(hash, max, s)) == hash(HeadBlock(hash, max, t))
    ensures s == t
  {
    var i, j := LastStart(|s|, max), LastStart(|t|, max);
    assert HeadBlock(hash, max, s) == HeadBlock(hash, max, t);
    LastStartIsStart(|s|, max);
    LastStartIsStart(|t|, max);
    assert s[i..] == t[j..] && KeyAt(hash, max, s, i) == KeyAt(hash, max, t, j);
    hide Injective, HeadBlock, KeyAt, LastStart;
    SameChain(hash, max, s, t, i, j);
    assert s == s[..i] + s[i..] == t[..j] + t[j..] == t;
  }

  lemma {:induction false} SameChain(hash: Block -> StoreKey, max: nat, s: seq<DirEntry>, t: seq<DirEntry>,
                                     i: nat, j: nat)
    requires 0 < max && Injective(hash) && i <= |s| && j <= |t| && IsStart(i, max) && IsStart(j, max)
    requires KeyAt(hash, max, s, i) == KeyAt(hash, max, t, j)
    ensures s[..i] == t[..j]
    decreases i
  {
    NextOfChain(hash, max, s, i);
    NextOfChain(hash, max, t, j);
    if i > 0 {
      assert BlockAt(hash, max, s, i) == BlockAt(hash, max, t, j);
      SameChain(hash, max, s, t, i - max, j - max);
      assert s[..i] == s[..i - max] + s[i - max..i] && t[..j] == t[..j - max] + t[j - max..j];
    }
  }
}
