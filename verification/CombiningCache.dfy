/** The read cache that combines concurrent fetches of one key (daemon/datastore.go). */
module CombiningCache {
  import opened Basics

  type CacheKey = nat
  type Waiter = nat

  datatype Buffer = Buffer(data: seq<byte>) {
    function Size(): nat {
      |data|
    }
  }

  /** A list element, with an identity of its own. */
  datatype Element = Element(id: nat, key: CacheKey, buf: Buffer)

  /** An entry is a placeholder with waiters, or it has a buffer and an element of the list. */
  datatype Entry = Waiting(waiters: seq<Waiter>) | Filled(buf: Buffer, element: nat)

  /** The cache; the front of `lru` is the least recently used, and `next` is an unused identity. */
  datatype Cache = Cache(lru: seq<Element>, entries: map<CacheKey, Entry>, size: int, free: int, next: nat)

  function Empty(size: int): Cache {
    Cache([], map[], size, size, 0)
  }

  // ---------------------------------------------------------------------------------------------
  // Operations on values

  function MoveToBack(lru: seq<Element>, id: nat): seq<Element> {
    if lru == [] then []
    else if lru[0].id == id then lru[1..] + [lru[0]]
    else [lru[0]] + MoveToBack(lru[1..], id)
  }

  predicate IsFilled(c: Cache, k: CacheKey) {
    k in c.entries && c.entries[k].Filled?
  }

  function WaitersOf(c: Cache, k: CacheKey): seq<Waiter> {
    if k in c.entries && c.entries[k].Waiting? then c.entries[k].waiters else []
  }

  /** get: a hit makes the entry the most recently used; otherwise the caller waits. */
  function Get(c: Cache, k: CacheKey, w: Waiter): Cache {
    if IsFilled(c, k) then c.(lru := MoveToBack(c.lru, c.entries[k].element))
    else c.(entries := c.entries[k := Waiting(WaitersOf(c, k) + [w])])
  }

  /** The eviction loop, from the front of the list until there is room. */
  function Evict(c: Cache): Cache
    decreases |c.lru|
  {
    if c.free >= 0 || c.lru == [] then c else
      Evict(c.(lru := c.lru[1..], entries := c.entries - {c.lru[0].key}, free := c.free + c.lru[0].buf.Size()))
  }

  /** storeInCache, apart from answering the waiters. */
  function Store(c: Cache, k: CacheKey, b: Option<Buffer>): Cache {
    if b.None? || b.value.Size() > c.size then c.(entries := c.entries - {k})
    else if IsFilled(c, k) then c
    else Insert(Evict(c.(free := c.free - b.value.Size())), k, b.value)
  }

  function Insert(c: Cache, k: CacheKey, b: Buffer): Cache {
    c.(lru := c.lru + [Element(c.next, k, b)], entries := c.entries[k := Filled(b, c.next)], next := c.next + 1)
  }

  // ---------------------------------------------------------------------------------------------
  // Accounting

  function Total(lru: seq<Element>): nat {
    if lru == [] then 0 else lru[0].buf.Size() + Total(lru[1..])
  }

  /** Free space and listed buffers make up the capacity; -1 marks a cache that is shut down. */
  predicate Accounted(c: Cache) {
    && c.free + Total(c.lru) == c.size
    && (c.free >= 0 || (c.free == -1 && c.lru == []))
  }

  lemma {:induction false} TotalAppend(lru: seq<Element>, e: Element)
    ensures Total(lru + [e]) == Total(lru) + e.buf.Size()
  {
    if lru != [] {
      assert (lru + [e])[1..] == lru[1..] + [e];
      TotalAppend(lru[1..], e);
    }
  }

  lemma {:induction false} TotalMove(lru: seq<Element>, id: nat)
    ensures Total(MoveToBack(lru, id)) == Total(lru)
  {
    if lru != [] {
      if lru[0].id == id {
        TotalAppend(lru[1..], lru[0]);
      } else {
        TotalMove(lru[1..], id);
      }
    }
  }

  function KeysOf(elements: seq<Element>): set<CacheKey> {
    set e | e in elements :: e.key
  }

  lemma KeysOfMore(lru: seq<Element>, m: nat)
    requires m < |lru|
    ensures KeysOf(lru[..m + 1]) == {lru[0].key} + KeysOf(lru[1..][..m])
  {
    assert lru[..m + 1] == [lru[0]] + lru[1..][..m];
  }

  /** Eviction takes the shortest stretch of least recently used elements that makes room. */
  lemma {:induction false} EvictsLeastRecent(c: Cache) returns (n: nat)
    requires c.free + Total(c.lru) >= 0
    ensures n <= |c.lru| && Evict(c).lru == c.lru[n..]
    ensures Evict(c).free >= 0 && Evict(c).free + Total(Evict(c).lru) == c.free + Total(c.lru)
    ensures n > 0 ==> c.free + Total(c.lru) - Total(c.lru[n - 1..]) < 0
    ensures Evict(c).size == c.size && Evict(c).next == c.next
    ensures Evict(c).entries == c.entries - KeysOf(c.lru[..n])
    decreases |c.lru|
  {
    if c.free >= 0 || c.lru == [] {
      n := 0;
    } else {
      var d := WithoutFirst(c);
      EvictStep(c);
      hide Evict, KeysOf, Total;
      var m := EvictsLeastRecent(d);
      n := m + 1;
      assert c.lru[n..] == d.lru[m..];
      assert c.lru[n - 1..] == if m > 0 then d.lru[m - 1..] else c.lru;
      KeysOfMore(c.lru, m);
      EntriesWithout(c.entries, c.lru[0].key, KeysOf(d.lru[..m]));
    }
  }

  /** One round of the eviction loop. */
  function WithoutFirst(c: Cache): Cache
    requires c.lru != []
  {
    c.(lru := c.lru[1..], entries := c.entries - {c.lru[0].key}, free := c.free + c.lru[0].buf.Size())
  }

  lemma EvictStep(c: Cache)
    requires c.free < 0 && c.lru != []
    ensures Evict(c) == Evict(WithoutFirst(c))
    ensures c.free + Total(c.lru) == WithoutFirst(c).free + Total(WithoutFirst(c).lru)
  {
  }

  lemma EntriesWithout(entries: map<CacheKey, Entry>, k: CacheKey, keys: set<CacheKey>)
    ensures entries - {k} - keys == entries - ({k} + keys)
  {
  }

  /** Whatever is stored, the accounts balance: eviction never runs out of elements, and the
      buffers on the list never exceed the capacity. */
  lemma StoreAccounted(c: Cache, k: CacheKey, b: Option<Buffer>)
    requires Accounted(c)
    ensures Accounted(Store(c, k, b)) && Store(c, k, b).size == c.size
  {
    if b.Some? && b.value.Size() <= c.size && !IsFilled(c, k) {
      var d := c.(free := c.free - b.value.Size());
      var n := EvictsLeastRecent(d);
      TotalAppend(Evict(d).lru, Element(c.next, k, b.value));
    }
  }

  lemma GetAccounted(c: Cache, k: CacheKey, w: Waiter)
    requires Accounted(c)
    ensures Accounted(Get(c, k, w))
  {
    if IsFilled(c, k) {
      TotalMove(c.lru, c.entries[k].element);
    }
  }

  // ---------------------------------------------------------------------------------------------
  // Filled entries and list elements

  ghost predicate Listed(c: Cache, k: CacheKey) {
    exists i :: 0 <= i < |c.lru| && c.lru[i].key == k
  }

  predicate HasElement(c: Cache, e: Element) {
    e.id < c.next && e.key in c.entries && c.entries[e.key] == Filled(e.buf, e.id)
  }

  predicate Distinct(lru: seq<Element>) {
    forall i, j :: 0 <= i < j < |lru| ==> lru[i].key != lru[j].key && lru[i].id != lru[j].id
  }

  /** Filled entries and list elements correspond one to one. */
  ghost predicate OneToOne(c: Cache) {
    && Distinct(c.lru)
    && (forall i :: 0 <= i < |c.lru| ==> HasElement(c, c.lru[i]))
    && (forall k :: IsFilled(c, k) ==> Listed(c, k))
  }

  lemma {:induction false} MoveKeeps(lru: seq<Element>, id: nat)
    requires Distinct(lru)
    ensures Distinct(MoveToBack(lru, id)) && multiset(MoveToBack(lru, id)) == multiset(lru)
  {
    if lru != [] {
      assert lru == [lru[0]] + lru[1..];
      DistinctHead(lru);
      if lru[0].id != id {
        var rest := MoveToBack(lru[1..], id);
        MoveKeeps(lru[1..], id);
        hide Distinct, MoveToBack;
        forall x | x in rest ensures x.key != lru[0].key && x.id != lru[0].id {
          assert x in multiset(rest);
        }
        DistinctCons(lru[0], rest);
      } else {
        hide Distinct;
        DistinctAppend(lru[1..], lru[0]);
      }
    }
  }

  lemma DistinctHead(lru: seq<Element>)
    requires Distinct(lru) && lru != []
    ensures Distinct(lru[1..]) && forall x :: x in lru[1..] ==> x.key != lru[0].key && x.id != lru[0].id
  {
  }

  lemma DistinctCons(e: Element, rest: seq<Element>)
    requires Distinct(rest) && forall x :: x in rest ==> x.key != e.key && x.id != e.id
    ensures Distinct([e] + rest)
  {
  }

  lemma DistinctAppend(rest: seq<Element>, e: Element)
    requires Distinct(rest) && forall x :: x in rest ==> x.key != e.key && x.id != e.id
    ensures Distinct(rest + [e])
  {
  }

  lemma GetOneToOne(c: Cache, k: CacheKey, w: Waiter)
    requires OneToOne(c)
    ensures OneToOne(Get(c, k, w))
  {
    var d := Get(c, k, w);
    if IsFilled(c, k) {
      MoveKeeps(c.lru, c.entries[k].element);
      forall i | 0 <= i < |d.lru| ensures HasElement(d, d.lru[i]) {
        assert d.lru[i] in multiset(c.lru);
      }
      forall x | IsFilled(d, x) ensures Listed(d, x) {
        assert IsFilled(c, x);
        var i :| 0 <= i < |c.lru| && c.lru[i].key == x;
        assert c.lru[i] in multiset(d.lru);
      }
    } else {
      forall x | IsFilled(d, x) ensures Listed(d, x) {
        assert IsFilled(c, x);
      }
    }
  }

  /** The elements of other keys, in their order. */
  function Others(lru: seq<Element>, k: CacheKey): seq<Element> {
    if lru == [] then [] else if lru[0].key == k then Others(lru[1..], k) else [lru[0]] + Others(lru[1..], k)
  }

  lemma {:induction false} OthersAll(lru: seq<Element>, k: CacheKey)
    requires forall e :: e in lru ==> e.key != k
    ensures Others(lru, k) == lru
  {
    if lru != [] {
      assert lru[0] in lru;
      OthersAll(lru[1..], k);
    }
  }

  lemma {:induction false} MoveIsOthers(lru: seq<Element>, e: Element)
    requires Distinct(lru) && e in lru
    ensures MoveToBack(lru, e.id) == Others(lru, e.key) + [e]
  {
    if lru[0].id == e.id {
      assert lru[0] == e;
      OthersAll(lru[1..], e.key);
    } else {
      assert lru[0] != e && e in lru[1..];
      MoveIsOthers(lru[1..], e);
    }
  }

  /** What was looked up or stored last is the last to be evicted, and the others keep their order. */
  lemma LastUsedIsAtBack(c: Cache, k: CacheKey, w: Waiter, b: Buffer)
    requires Accounted(c) && OneToOne(c)
    ensures IsFilled(c, k) ==>
      Get(c, k, w).lru == Others(c.lru, k) + [Element(c.entries[k].element, k, c.entries[k].buf)]
    ensures !IsFilled(c, k) && b.Size() <= c.size ==>
      var s := Store(c, k, Some(b)).lru; s != [] && s[|s| - 1].key == k && s[|s| - 1].buf == b
  {
    if IsFilled(c, k) {
      assert Listed(c, k);
      var i :| 0 <= i < |c.lru| && c.lru[i].key == k;
      assert HasElement(c, c.lru[i]);
      MoveIsOthers(c.lru, c.lru[i]);
    }
  }

  /** The list already has the key's element, and the entry is about to be dropped. */
  predicate DropsFilled(c: Cache, k: CacheKey, b: Option<Buffer>) {
    IsFilled(c, k) && (b.None? || b.value.Size() > c.size)
  }

  lemma EvictOneToOne(c: Cache)
    requires OneToOne(c) && c.free + Total(c.lru) >= 0
    ensures OneToOne(Evict(c)) && Evict(c).next == c.next
    ensures forall k :: k in Evict(c).entries ==> k in c.entries
    ensures forall k :: k in c.entries && c.entries[k].Waiting? ==> k in Evict(c).entries
    ensures forall k :: k in Evict(c).entries ==> Evict(c).entries[k] == c.entries[k]
  {
    hide Evict, Total;
    var n := EvictsLeastRecent(c);
    var d := Evict(c);
    forall i | 0 <= i < |d.lru| ensures HasElement(d, d.lru[i]) {
      assert d.lru[i] == c.lru[n + i];
    }
    forall k | IsFilled(d, k) ensures Listed(d, k) {
      assert IsFilled(c, k);
      var i :| 0 <= i < |c.lru| && c.lru[i].key == k;
      assert i >= n && d.lru[i - n].key == k;
    }
  }

  lemma InsertOneToOne(c: Cache, k: CacheKey, b: Buffer)
    requires OneToOne(c) && !IsFilled(c, k)
    ensures OneToOne(Insert(c, k, b))
  {
    var d := Insert(c, k, b);
    forall i | 0 <= i < |d.lru| ensures HasElement(d, d.lru[i]) && (i < |c.lru| ==> d.lru[i].key != k) {
      if i < |c.lru| {
        assert HasElement(c, c.lru[i]);
      }
    }
    forall x | IsFilled(d, x) ensures Listed(d, x) {
      if x == k {
        assert d.lru[|c.lru|].key == x;
      } else {
        assert IsFilled(c, x);
        var i :| 0 <= i < |c.lru| && c.lru[i].key == x;
        assert d.lru[i].key == x;
      }
    }
  }

  /** Storing keeps entries and elements together exactly when it does not drop a filled entry. */
  lemma StoreOneToOneIff(c: Cache, k: CacheKey, b: Option<Buffer>)
    requires Accounted(c) && OneToOne(c)
    ensures OneToOne(Store(c, k, b)) <==> !DropsFilled(c, k, b)
  {
    var d := Store(c, k, b);
    if b.None? || b.value.Size() > c.size {
      if IsFilled(c, k) {
        var i :| 0 <= i < |c.lru| && c.lru[i].key == k;
        assert !HasElement(d, d.lru[i]);
      } else {
        forall x | IsFilled(d, x) ensures Listed(d, x) {
          assert IsFilled(c, x);
        }
        forall i | 0 <= i < |d.lru| ensures HasElement(d, d.lru[i]) {
          assert HasElement(c, c.lru[i]);
        }
      }
    } else if !IsFilled(c, k) {
      var e := c.(free := c.free - b.value.Size());
      FreeIsApart(c, e);
      EvictOneToOne(e);
      InsertOneToOne(Evict(e), k, b.value);
    }
  }

  lemma FreeIsApart(c: Cache, d: Cache)
    requires OneToOne(c) && d == c.(free := d.free)
    ensures OneToOne(d)
  {
    forall k | IsFilled(d, k) ensures Listed(d, k) {
      assert IsFilled(c, k);
    }
    forall i | 0 <= i < |d.lru| ensures HasElement(d, d.lru[i]) {
      assert HasElement(c, c.lru[i]);
    }
  }

  // ---------------------------------------------------------------------------------------------
  // Runs: requests, fetches under way and answers

  /** `asked[w]` is the key that request w is for, and `answers[w]` all that it was sent; `pending`
      are the fetches under way, and `supplied` what fetches, failed ones too, and sets ever came to. */
  datatype System = System(
    cache: Cache,
    pending: multiset<CacheKey>,
    asked: seq<CacheKey>,
    answers: seq<seq<Option<Buffer>>>,
    supplied: set<(CacheKey, Option<Buffer>)>)

  datatype Step =
    | Request(key: CacheKey)
    | Fetched(key: CacheKey, result: Option<Buffer>)
    | Set(key: CacheKey, buf: Buffer)
    | Shutdown

  predicate Enabled(s: System, step: Step) {
    step.Fetched? ==> step.key in s.pending
  }

  /** One send to each waiter in turn. */
  function Deliver(answers: seq<seq<Option<Buffer>>>, waiters: seq<Waiter>, b: Option<Buffer>): seq<seq<Option<Buffer>>>
    decreases |waiters|
  {
    if waiters == [] then answers
    else if waiters[0] >= |answers| then Deliver(answers, waiters[1..], b)
    else Deliver(answers[waiters[0] := answers[waiters[0]] + [b]], waiters[1..], b)
  }

  function Stored(s: System, k: CacheKey, b: Option<Buffer>): System {
    s.(cache := Store(s.cache, k, b),
       answers := Deliver(s.answers, WaitersOf(s.cache, k), b),
       supplied := s.supplied + {(k, b)})
  }

  function Do(s: System, step: Step): System {
    match step
    case Request(k) =>
      s.(cache := Get(s.cache, k, |s.asked|),
         pending := if k in s.cache.entries then s.pending else s.pending + multiset{k},
         asked := s.asked + [k],
         answers := s.answers + [if IsFilled(s.cache, k) then [Some(s.cache.entries[k].buf)] else []])
    case Fetched(k, b) => Stored(s.(pending := s.pending - multiset{k}), k, b)
    case Set(k, b) => Stored(s, k, Some(b))
    case Shutdown => s.(cache := Empty(-1).(next := s.cache.next))
  }

  function Start(size: nat): System {
    System(Empty(size), multiset{}, [], [], {})
  }

  predicate Waits(s: System, w: Waiter)
    requires w < |s.asked|
  {
    w in WaitersOf(s.cache, s.asked[w])
  }

  predicate NoRepeats(waiters: seq<Waiter>) {
    forall i, j :: 0 <= i < j < |waiters| ==> waiters[i] != waiters[j]
  }

  predicate RightAnswer(s: System, k: CacheKey, b: Option<Buffer>) {
    (k, b) in s.supplied
  }

  ghost predicate Inv(s: System) {
    && Accounted(s.cache) && OneToOne(s.cache) && |s.answers| == |s.asked|
    // Placeholders have a fetch under way and waiters that asked for their key.
    && (forall k :: k in s.cache.entries && s.cache.entries[k].Waiting? ==>
          && k in s.pending
          && s.cache.entries[k].waiters != [] && NoRepeats(s.cache.entries[k].waiters)
          && forall w :: w in s.cache.entries[k].waiters ==> w < |s.asked| && s.asked[w] == k)
    // A request waits or has got its one answer.
    && (forall w :: 0 <= w < |s.asked| ==> |s.answers[w]| == if Waits(s, w) then 0 else 1)
    // Answers and cached buffers are what was supplied under the key.
    && (forall w :: 0 <= w < |s.asked| && |s.answers[w]| == 1 ==> RightAnswer(s, s.asked[w], s.answers[w][0]))
    && (forall k :: IsFilled(s.cache, k) ==> (k, Some(s.cache.entries[k].buf)) in s.supplied)
  }

  /** What a step must not do: drop a filled entry, or shut down with requests waiting. */
  predicate Safe(s: System, step: Step) {
    match step
    case Request(_) => true
    case Fetched(k, b) => !DropsFilled(s.cache, k, b)
    case Set(k, b) => !DropsFilled(s.cache, k, Some(b))
    case Shutdown => forall k :: k in s.cache.entries ==> s.cache.entries[k].Filled?
  }

  lemma {:induction false} DeliverOnce(answers: seq<seq<Option<Buffer>>>, waiters: seq<Waiter>, b: Option<Buffer>)
    requires NoRepeats(waiters)
    ensures |Deliver(answers, waiters, b)| == |answers|
    ensures forall w :: 0 <= w < |answers| ==>
      Deliver(answers, waiters, b)[w] == if w in waiters then answers[w] + [b] else answers[w]
    decreases |waiters|
  {
    if waiters != [] {
      var rest := waiters[1..];
      var next := if waiters[0] >= |answers| then answers else answers[waiters[0] := answers[waiters[0]] + [b]];
      assert waiters == [waiters[0]] + rest && waiters[0] !in rest;
      DeliverOnce(next, rest, b);
    }
  }

  /** Other keys keep their placeholders, and the stored key has none. */
  lemma StoreEntries(c: Cache, k: CacheKey, b: Option<Buffer>)
    requires Accounted(c) && OneToOne(c)
    ensures var d := Store(c, k, b);
      && (forall x :: x in d.entries && x != k ==> x in c.entries && d.entries[x] == c.entries[x])
      && (forall x :: x in c.entries && x != k && c.entries[x].Waiting? ==> x in d.entries)
      && (k in d.entries ==> d.entries[k].Filled? && (IsFilled(c, k) || b == Some(d.entries[k].buf)))
      && (IsFilled(c, k) && k in d.entries ==> d.entries[k] == c.entries[k])
  {
    if b.Some? && b.value.Size() <= c.size && !IsFilled(c, k) {
      var e := c.(free := c.free - b.value.Size());
      FreeIsApart(c, e);
      EvictOneToOne(e);
    }
  }

  lemma AppendNoRepeats(waiters: seq<Waiter>, w: Waiter)
    requires NoRepeats(waiters) && w !in waiters
    ensures NoRepeats(waiters + [w])
  {
  }

  lemma RequestKeepsInv(s: System, k: CacheKey)
    requires Inv(s)
    ensures Inv(Do(s, Request(k)))
  {
    hide Accounted, OneToOne, MoveToBack;
    var t := Do(s, Request(k));
    GetAccounted(s.cache, k, |s.asked|);
    GetOneToOne(s.cache, k, |s.asked|);
    forall w | 0 <= w < |t.asked|
      ensures |t.answers[w]| == if Waits(t, w) then 0 else 1
      ensures |t.answers[w]| == 1 ==> RightAnswer(t, t.asked[w], t.answers[w][0])
    {
      if w < |s.asked| {
        assert Waits(t, w) == Waits(s, w);
      } else if IsFilled(s.cache, k) {
        assert t.answers[w] == [Some(s.cache.entries[k].buf)];
      } else {
        var ws := WaitersOf(s.cache, k);
        assert (ws + [w])[|ws|] == w;
      }
    }
    forall x | x in t.cache.entries && t.cache.entries[x].Waiting?
      ensures x in t.pending
      ensures t.cache.entries[x].waiters != [] && NoRepeats(t.cache.entries[x].waiters)
      ensures forall w :: w in t.cache.entries[x].waiters ==> w < |t.asked| && t.asked[w] == x
    {
      if x == k {
        var ws := WaitersOf(s.cache, k);
        if !IsFilled(s.cache, k) {
          AppendNoRepeats(ws, |s.asked|);
        }
      }
    }
    forall x | IsFilled(t.cache, x) ensures (x, Some(t.cache.entries[x].buf)) in t.supplied {
      assert IsFilled(s.cache, x);
    }
  }

  /** A store after which the fetches under way still cover the other placeholders. */
  lemma StoreKeepsInv(s: System, t: System, k: CacheKey, b: Option<Buffer>)
    requires Inv(s) && !DropsFilled(s.cache, k, b)
    requires t == Stored(s.(pending := t.pending), k, b)
    requires forall x :: x in s.pending && x != k ==> x in t.pending
    ensures Inv(t)
  {
    StoreAccounted(s.cache, k, b);
    StoreOneToOneIff(s.cache, k, b);
    StoreEntries(s.cache, k, b);
    DeliverOnce(s.answers, WaitersOf(s.cache, k), b);
    hide Store, Accounted, OneToOne, Deliver;
    forall w | 0 <= w < |t.asked|
      ensures |t.answers[w]| == if Waits(t, w) then 0 else 1
      ensures |t.answers[w]| == 1 ==> RightAnswer(t, t.asked[w], t.answers[w][0])
    {
      if t.asked[w] == k {
        assert w in WaitersOf(s.cache, k) <==> Waits(s, w);
        assert !Waits(t, w);
      } else {
        assert Waits(t, w) == Waits(s, w);
        assert w !in WaitersOf(s.cache, k);
      }
    }
    forall x | IsFilled(t.cache, x) ensures (x, Some(t.cache.entries[x].buf)) in t.supplied {
      if x != k || IsFilled(s.cache, k) {
        assert IsFilled(s.cache, x);
      }
    }
  }

  lemma ShutdownKeepsInvIff(s: System)
    requires Inv(s)
    ensures Inv(Do(s, Shutdown)) <==> Safe(s, Shutdown)
  {
    var t := Do(s, Shutdown);
    if k :| k in s.cache.entries && s.cache.entries[k].Waiting? {
      var w := s.cache.entries[k].waiters[0];
      assert w in s.cache.entries[k].waiters;
      assert Waits(s, w) && !Waits(t, w);
    } else {
      forall w | 0 <= w < |t.asked| ensures |t.answers[w]| == 1 && !Waits(t, w) {
        assert !Waits(s, w);
      }
    }
  }

  /** A step keeps the invariant exactly when it is safe. */
  lemma StepKeepsInvIff(s: System, step: Step)
    requires Inv(s) && Enabled(s, step)
    ensures Inv(Do(s, step)) <==> Safe(s, step)
  {
    match step
    case Request(k) => RequestKeepsInv(s, k);
    case Fetched(k, b) =>
      StoreOneToOneIff(s.cache, k, b);
      if Safe(s, step) {
        StoreKeepsInv(s, Do(s, step), k, b);
      }
    case Set(k, b) =>
      StoreOneToOneIff(s.cache, k, Some(b));
      if Safe(s, step) {
        StoreKeepsInv(s, Do(s, step), k, Some(b));
      }
    case Shutdown => ShutdownKeepsInvIff(s);
  }

  function After(s: System, steps: seq<Step>): System
    decreases |steps|
  {
    if steps == [] then s else After(Do(s, steps[0]), steps[1..])
  }

  predicate Possible(s: System, steps: seq<Step>)
    decreases |steps|
  {
    steps == [] || (Enabled(s, steps[0]) && Possible(Do(s, steps[0]), steps[1..]))
  }

  predicate AllSafe(s: System, steps: seq<Step>)
    decreases |steps|
  {
    steps == [] || (Safe(s, steps[0]) && AllSafe(Do(s, steps[0]), steps[1..]))
  }

  lemma {:induction false} RunKeepsInv(s: System, steps: seq<Step>)
    requires Inv(s) && Possible(s, steps) && AllSafe(s, steps)
    ensures Inv(After(s, steps))
    decreases |steps|
  {
    if steps != [] {
      StepKeepsInvIff(s, steps[0]);
      RunKeepsInv(Do(s, steps[0]), steps[1..]);
    }
  }

  /** The keys requested by a run, in order. */
  function Requests(steps: seq<Step>): seq<CacheKey> {
    if steps == [] then [] else (if steps[0].Request? then [steps[0].key] else []) + Requests(steps[1..])
  }

  /** Some fetch of the key came to this result, or the block was set. */
  ghost predicate CameTo(steps: seq<Step>, k: CacheKey, b: Option<Buffer>) {
    exists t :: 0 <= t < |steps| && (steps[t] == Fetched(k, b) || (b.Some? && steps[t] == Set(k, b.value)))
  }

  /** The history in the state is what the steps say. */
  lemma {:induction false} HistoryOfSteps(s: System, steps: seq<Step>)
    ensures After(s, steps).asked == s.asked + Requests(steps)
    ensures forall k, b :: (k, b) in After(s, steps).supplied ==> (k, b) in s.supplied || CameTo(steps, k, b)
    decreases |steps|
  {
    if steps != [] {
      var t, rest := Do(s, steps[0]), steps[1..];
      StepHistory(s, steps[0]);
      hide Do;
      HistoryOfSteps(t, rest);
      forall k, b | (k, b) in After(t, rest).supplied && (k, b) !in s.supplied ensures CameTo(steps, k, b) {
        if (k, b) in t.supplied {
          assert steps[0] == Fetched(k, b) || (b.Some? && steps[0] == Set(k, b.value));
        } else {
          CameToLater(steps, k, b);
        }
      }
    }
  }

  lemma StepHistory(s: System, step: Step)
    ensures Do(s, step).asked == s.asked + if step.Request? then [step.key] else []
    ensures forall k, b :: (k, b) in Do(s, step).supplied && (k, b) !in s.supplied ==>
              step == Fetched(k, b) || (b.Some? && step == Set(k, b.value))
  {
    hide Deliver, Store, Get;
  }

  lemma CameToLater(steps: seq<Step>, k: CacheKey, b: Option<Buffer>)
    requires steps != [] && CameTo(steps[1..], k, b)
    ensures CameTo(steps, k, b)
  {
    var t :| 0 <= t < |steps[1..]| && (steps[1..][t] == Fetched(k, b) || (b.Some? && steps[1..][t] == Set(k, b.value)));
    assert steps[t + 1] == steps[1..][t];
  }

  /** In every safe run the list never holds more than the capacity, no request is ever answered
      twice, or with anything but what a fetch of its key came to or was set, and those not answered yet
      have a fetch under way. */
  lemma SafeRuns(size: nat, steps: seq<Step>)
    requires Possible(Start(size), steps) && AllSafe(Start(size), steps)
    ensures var s := After(Start(size), steps);
      && (Total(s.cache.lru) <= s.cache.size || s.cache.lru == [])
      && s.asked == Requests(steps) && |s.answers| == |s.asked|
      && (forall w :: 0 <= w < |s.asked| ==>
            || (|s.answers[w]| == 1 && CameTo(steps, s.asked[w], s.answers[w][0]))
            || (s.answers[w] == [] && s.asked[w] in s.pending))
  {
    var s := After(Start(size), steps);
    RunKeepsInv(Start(size), steps);
    AnswersAreRight(s);
    HistoryOfSteps(Start(size), steps);
    hide CameTo, After, Requests, Inv, Total, Possible, AllSafe;
  }

  lemma AnswersAreRight(s: System)
    requires Inv(s)
    ensures (Total(s.cache.lru) <= s.cache.size || s.cache.lru == []) && |s.answers| == |s.asked|
    ensures forall w :: 0 <= w < |s.asked| ==>
              || (|s.answers[w]| == 1 && (s.asked[w], s.answers[w][0]) in s.supplied)
              || (s.answers[w] == [] && s.asked[w] in s.pending)
  {
    forall w | 0 <= w < |s.asked| && |s.answers[w]| != 1
      ensures s.answers[w] == [] && s.asked[w] in s.pending
    {
      assert Waits(s, w);
    }
  }

  /** How often a block was set. */
  function Sets(steps: seq<Step>, k: CacheKey): nat {
    if steps == [] then 0 else (if steps[0].Set? && steps[0].key == k then 1 else 0) + Sets(steps[1..], k)
  }

  /** A fetch under way belongs to the placeholder of its key, or to one that a set filled meanwhile. */
  predicate Combined(s: System, sets: nat, k: CacheKey) {
    s.pending[k] <= sets + if k in s.cache.entries && s.cache.entries[k].Waiting? then 1 else 0
  }

  lemma StepCombines(s: System, step: Step, sets: nat, k: CacheKey)
    requires Inv(s) && Enabled(s, step) && Safe(s, step) && Combined(s, sets, k)
    ensures Combined(Do(s, step), sets + if step.Set? && step.key == k then 1 else 0, k)
  {
    if step.Fetched? {
      StoreEntries(s.cache, step.key, step.result);
    } else if step.Set? {
      StoreEntries(s.cache, step.key, Some(step.buf));
    }
    hide Store, Accounted, OneToOne, Deliver, MoveToBack;
  }

  lemma {:induction false} RunCombines(s: System, steps: seq<Step>, sets: nat, k: CacheKey)
    requires Inv(s) && Possible(s, steps) && AllSafe(s, steps) && Combined(s, sets, k)
    ensures Combined(After(s, steps), sets + Sets(steps, k), k)
    decreases |steps|
  {
    hide Inv, Do, Enabled, Safe, Combined;
    if steps != [] {
      StepKeepsInvIff(s, steps[0]);
      StepCombines(s, steps[0], sets, k);
      RunCombines(Do(s, steps[0]), steps[1..], sets + if steps[0].Set? && steps[0].key == k then 1 else 0, k);
    }
  }

  /** Requests are combined: of a key that is never set there is at most one fetch under way at a time,
      however many ask for it, and of others one more for each set at most. */
  lemma FetchesAreCombined(size: nat, steps: seq<Step>, k: CacheKey)
    requires Possible(Start(size), steps) && AllSafe(Start(size), steps)
    ensures After(Start(size), steps).pending[k] <= 1 + Sets(steps, k)
  {
    RunCombines(Start(size), steps, 0, k);
  }

  // ---------------------------------------------------------------------------------------------
  // What goes wrong otherwise

  predicate Lost(s: System, w: Waiter) {
    && |s.answers| == |s.asked| && w < |s.asked| && s.answers[w] == []
    && (forall k :: k in s.cache.entries ==> w !in WaitersOf(s.cache, k))
  }

  lemma {:induction false} EvictAddsNothing(c: Cache)
    ensures forall k :: k in Evict(c).entries ==> k in c.entries && Evict(c).entries[k] == c.entries[k]
    decreases |c.lru|
  {
    if c.free < 0 && c.lru != [] {
      var e := c.lru[0];
      EvictAddsNothing(c.(lru := c.lru[1..], entries := c.entries - {e.key}, free := c.free + e.buf.Size()));
    }
  }

  lemma {:induction false} DeliverElsewhere(answers: seq<seq<Option<Buffer>>>, waiters: seq<Waiter>, b: Option<Buffer>,
                                            w: Waiter)
    requires w < |answers| && w !in waiters
    ensures |Deliver(answers, waiters, b)| == |answers| && Deliver(answers, waiters, b)[w] == answers[w]
    decreases |waiters|
  {
    if waiters != [] {
      var next := if waiters[0] >= |answers| then answers else answers[waiters[0] := answers[waiters[0]] + [b]];
      DeliverElsewhere(next, waiters[1..], b, w);
    }
  }

  lemma StepKeepsLost(s: System, step: Step, w: Waiter)
    requires Lost(s, w)
    ensures Lost(Do(s, step), w)
  {
    if step.Fetched? || step.Set? {
      var b := if step.Fetched? then step.result else Some(step.buf);
      if b.Some? {
        EvictAddsNothing(s.cache.(free := s.cache.free - b.value.Size()));
      }
      DeliverElsewhere(s.answers, WaitersOf(s.cache, step.key), b, w);
    } else if step.Request? {
      var ws := WaitersOf(s.cache, step.key);
      assert w !in ws && w !in ws + [|s.asked|];
    }
  }

  lemma {:induction false} RunKeepsLost(s: System, steps: seq<Step>, w: Waiter)
    requires Lost(s, w)
    ensures Lost(After(s, steps), w)
    decreases |steps|
  {
    if steps != [] {
      StepKeepsLost(s, steps[0], w);
      RunKeepsLost(Do(s, steps[0]), steps[1..], w);
    }
  }

  lemma OneStep(s: System, x: Step, rest: seq<Step>)
    ensures After(s, [x] + rest) == After(Do(s, x), rest)
    ensures Possible(s, [x] + rest) <==> Enabled(s, x) && Possible(Do(s, x), rest)
  {
    assert ([x] + rest)[1..] == rest;
  }

  lemma ThreeSteps(s: System, x: Step, y: Step, z: Step)
    ensures After(s, [x, y, z]) == Do(Do(Do(s, x), y), z)
    ensures Possible(s, [x, y, z]) <==> Enabled(s, x) && Enabled(Do(s, x), y) && Enabled(Do(Do(s, x), y), z)
  {
    hide Do, Enabled;
    assert [x, y, z] == [x] + [y, z] && [y, z] == [y] + [z] && [z] == [z] + [];
    OneStep(s, x, [y, z]);
    OneStep(Do(s, x), y, [z]);
    OneStep(Do(Do(s, x), y), z, []);
  }

  /** A key that is listed but has no entry. */
  function Orphaned(b: Buffer): System {
    System(Cache([Element(0, 1, b)], map[], 1, 0, 1), multiset{}, [1], [[Some(b)]], {(1, Some(b)), (1, None)})
  }

  /** A block is set while a fetch of it is under way that then fails: its element stays behind. */
  lemma FailedFetchOrphans(b: Buffer)
    requires b.Size() == 1
    ensures var bad := [Request(1), Set(1, b), Fetched(1, None)];
      Possible(Start(1), bad) && After(Start(1), bad) == Orphaned(b)
  {
    ThreeSteps(Start(1), Request(1), Set(1, b), Fetched(1, None));
    var s := Do(Start(1), Request(1));
    assert s.cache.entries[1].waiters == [0] && s.asked == [1] && s.answers == [[]];
    assert s == System(Cache([], map[1 := Waiting([0])], 1, 1, 0), multiset{1}, [1], [[]], {});
    var t := Do(s, Set(1, b));
    var sent := s.answers[0 := s.answers[0] + [Some(b)]];
    assert t.answers == Deliver(sent, [0][1..], Some(b)) == sent;
    assert sent[0] == [Some(b)] && sent == [[Some(b)]];
    assert t == System(Cache([Element(0, 1, b)], map[1 := Filled(b, 0)], 1, 0, 1),
                       multiset{1}, [1], [[Some(b)]], {(1, Some(b))});
  }

  /** On eviction that element takes along the placeholder of a later request, which is never
      answered, whatever happens afterwards. */
  lemma RequestIsLost(b: Buffer, steps: seq<Step>)
    requires b.Size() == 1
    ensures var bad := [Request(1), Set(2, b), Fetched(1, Some(b))];
      && Possible(Orphaned(b), bad)
      && Lost(After(After(Orphaned(b), bad), steps), 1)
  {
    ThreeSteps(Orphaned(b), Request(1), Set(2, b), Fetched(1, Some(b)));
    var s := Do(Orphaned(b), Request(1));
    assert s.cache.entries[1].waiters == [1] && s.asked == [1, 1] && s.answers == [[Some(b)], []];
    assert s == System(Cache([Element(0, 1, b)], map[1 := Waiting([1])], 1, 0, 1),
                       multiset{1}, [1, 1], [[Some(b)], []], {(1, Some(b)), (1, None)});
    var c := s.cache.(free := -1);
    assert Evict(c) == Evict(Cache([], map[], 1, 0, 1)) == Cache([], map[], 1, 0, 1);
    var t := Do(s, Set(2, b));
    assert t.cache == Cache([Element(1, 2, b)], map[2 := Filled(b, 1)], 1, 0, 2);
    assert WaitersOf(t.cache, 1) == [];
    assert Lost(t, 1);
    StepKeepsLost(t, Fetched(1, Some(b)), 1);
    RunKeepsLost(Do(t, Fetched(1, Some(b))), steps, 1);
  }

  // ---------------------------------------------------------------------------------------------
  // The cache in place

  class CombiningCacheImpl {
    var lru: seq<Element>
    var entryMap: map<CacheKey, Entry>
    var size: int
    var freeSpace: int
    var next: nat

    ghost function Value(): Cache
      reads this
    {
      Cache(lru, entryMap, size, freeSpace, next)
    }

    constructor (cacheSize: nat)
      ensures Value() == Empty(cacheSize) && Accounted(Value()) && OneToOne(Value())
    {
      lru, entryMap, size, freeSpace, next := [], map[], cacheSize, cacheSize, 0;
    }

    /** shutdown: no buffer fits any more. */
    method Shutdown()
      modifies this
      ensures Value() == Empty(-1).(next := old(next)) && Accounted(Value())
    {
      size, freeSpace, entryMap, lru := -1, -1, map[], [];
    }

    /** get: the buffer, or else the caller waits on channel w, perhaps for a new fetch. */
    method Lookup(key: CacheKey, w: Waiter) returns (cached: Option<Buffer>, fetch: bool)
      modifies this
      ensures Value() == Get(old(Value()), key, w)
      ensures cached == if IsFilled(old(Value()), key) then Some(old(entryMap)[key].buf) else None
      ensures fetch == (key !in old(entryMap))
    {
      fetch := key !in entryMap;
      if key in entryMap && entryMap[key].Filled? {
        lru := MoveToBack(lru, entryMap[key].element);
        return Some(entryMap[key].buf), false;
      }
      var waiting := if fetch then [] else entryMap[key].waiters;
      entryMap := entryMap[key := Waiting(waiting + [w])];
      cached := None;
    }

    /** The eviction loop; it never runs out of elements. */
    method MakeRoom()
      requires freeSpace + Total(lru) >= 0
      modifies this
      ensures Value() == Evict(old(Value()))
    {
      while freeSpace < 0
        invariant freeSpace + Total(lru) >= 0
        invariant Evict(Value()) == Evict(old(Value()))
        decreases |lru|
      {
        assert lru != [];
        var evicted := lru[0];
        lru := lru[1..];
        freeSpace := freeSpace + evicted.buf.Size();
        entryMap := entryMap - {evicted.key};
      }
    }

    /** storeInCache: the waiters to answer, and the buffer in the cache if it fits. */
    method StoreInCache(key: CacheKey, buf: Option<Buffer>) returns (answered: seq<Waiter>)
      requires Accounted(Value())
      modifies this
      ensures Value() == Store(old(Value()), key, buf) && Accounted(Value())
      ensures answered == WaitersOf(old(Value()), key)
    {
      StoreAccounted(Value(), key, buf);
      hide Accounted;
      answered := WaitersOf(Cache(lru, entryMap, size, freeSpace, next), key);
      if buf.None? || buf.value.Size() > size {
        entryMap := entryMap - {key};
        return;
      }
      if key in entryMap && entryMap[key].Filled? {
        return;
      }
      RoomFor(Value(), buf.value);
      freeSpace := freeSpace - buf.value.Size();
      MakeRoom();
      lru := lru + [Element(next, key, buf.value)];
      entryMap := entryMap[key := Filled(buf.value, next)];
      next := next + 1;
    }
  }

  lemma RoomFor(c: Cache, b: Buffer)
    requires Accounted(c) && b.Size() <= c.size
    ensures c.free - b.Size() + Total(c.lru) >= 0
  {
  }
}
