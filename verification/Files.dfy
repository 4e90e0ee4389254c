/** Whole files: reads, writes and truncation across blocks, with the accessor's type upgraded as the
    file grows (daemon/file.go). */
module Files {
  import opened Basics
  import opened Objects
  import opened ByteMerge
  import opened FileContent
  import opened FileRanges
  import opened DataStore
  import opened FileAccess

  /** blockAccessor: one of three representations. */
  datatype Accessor = Small(s: SmallFile) | Medium(m: MultiBlockFile) | Large(m: MultiBlockFile)
  {
    function Obj(): object {
      if Small? then s else m
    }

    function DataStore(): Store {
      if Small? then s.store else m.store
    }

    ghost predicate Valid()
      reads Obj(), DataStore()
    {
      match this
      case Small(s) => s.Valid()
      case Medium(m) => m.Valid() && m.maxBlocks == MAX_BLOCKS_MEDIUM
      case Large(m) => m.Valid() && m.maxBlocks > MAX_BLOCKS_MEDIUM
    }

    /** The blocks of every representation; a small file has one, or none if it is empty. */
    ghost function View(): (f: Blocks)
      requires Valid()
      reads Obj(), DataStore()
      ensures f.WellFormed() && (!Small? ==> |f.data| == |m.keys|)
    {
      if Small? then FromSmallKeepsContent(s.Content()); FromSmall(s.Content()) else m.View()
    }

    /** The number of blocks this representation can hold. */
    function Limit(): nat {
      if Small? then 1 else m.maxBlocks
    }

    /** fileLength.  On a multi-block file without blocks the source's subtraction wraps around. */
    method FileLength() returns (n: nat)
      requires Valid()
      modifies Obj()
      ensures Valid() && View() == old(View())
      ensures n == if !Small? && View().data == [] then UINT64_RANGE - MAX_BLOCK_SIZE else View().Length()
    {
      if Small? {
        var d := s.GetBuffer();
        FromSmallKeepsContent(d);
        n := |d|;
      } else {
        n := m.FileLength();
      }
    }

    /** Every representation reads the same bytes from a block. */
    method ReadBlock(idx: nat, offset: nat, buf: array<byte>, start: nat) returns (r: Result)
      requires Valid() && start <= buf.Length
      modifies Obj(), buf
      ensures Valid() && View() == old(View())
      ensures if offset >= MAX_BLOCK_SIZE then r.Err? else r.Ok?
      ensures r.Ok? ==> ReadsInto(View().Readable(idx, offset), old(buf[..]), buf[..], start, r.count)
    {
      if Small? {
        r := s.ReadBlock(idx, offset, buf, start);
        SmallReadable(s.Content(), idx, offset);
      } else {
        r := m.ReadBlock(idx, offset, buf, start);
      }
    }

    /** sync: nothing stays held, and the store gets a key that names a multi-block file's blocks, or the
        block of a small file's content. */
    method Sync() returns (key: StoreKey)
      requires Valid()
      modifies Obj(), DataStore()
      ensures Valid() && View() == old(View()) && Grows(old(DataStore().blocks), DataStore().blocks)
      ensures NothingHeld() && Names(key)
    {
      if Small? {
        hide FromSmall;
        key := s.Sync();
      } else {
        hide IsFile, StoredView, MultiBlockFile.View;
        key := m.Sync();
      }
    }

    /** No changes wait to be stored. */
    ghost predicate NothingHeld()
      reads Obj()
    {
      if Small? then s.buf.None? else m.toSync == map[]
    }

    /** The key leads to the contents. */
    ghost predicate Names(key: StoreKey)
      requires Valid()
      reads Obj(), DataStore()
    {
      if Small? then
        && key == s.key && HoldsData(s.store.blocks, key)
        && s.Content() == Resize(BytesOf(s.store.blocks, key), s.size)
      else IsFile(m.store.blocks, key) && StoredView(m.store.blocks, key) == m.View()
    }

    /** Every representation changes in the same way when a block is written that it can hold.  Writing
        nothing is an error, which may leave an empty block behind. */
    method WriteBlock(idx: nat, offset: nat, b: Data) returns (r: Result)
      requires Valid() && idx < Limit() && offset < MAX_BLOCK_SIZE
      modifies Obj()
      ensures Valid() && r == if b == [] then Err else Ok(|Fit(b, offset)|)
      ensures b != [] ==> View() == old(View()).Write(idx, offset, b)
      ensures b == [] && idx == 0 && offset == 0 && old(View()).data == [] ==>
        View() == if Small? then old(View()) else Blocks([[]], 0)
    {
      if Small? {
        if b == [] {
          r := s.WriteBlock(idx, offset, b);
          return;
        }
        SmallWrite(s.Content(), offset, b);
        hide Overlay, Blocks.Write, FromSmall;
        r := s.WriteBlock(idx, offset, b);
      } else {
        assert b == [] && idx == 0 && View().data == [] ==> View().Expand(1) == Blocks([[]], 0);
        hide Blocks.Write, Blocks.Expand;
        r := m.WriteBlock(idx, offset, b);
      }
    }
  }

  lemma SmallReadable(c: Data, idx: nat, offset: nat)
    ensures FromSmall(c).Readable(idx, offset) == if idx > 0 || offset > |c| then [] else c[offset..]
  {
    assert Resize(c, |c|) == c;
  }

  lemma SmallWrite(c: Data, offset: nat, b: Data)
    requires |c| <= MAX_BLOCK_SIZE && offset < MAX_BLOCK_SIZE && b != []
    ensures FromSmall(c).Write(0, offset, b) == FromSmall(Overlay(c, offset, Fit(b, offset)))
  {
    BufferWriteOverlays(c, b, offset);
    if c == [] {
      assert FromSmall(c).Expand(1).data == [c];
    }
    var d := BufferWrite(c, b, offset);
    assert FromSmall(c).Write(0, offset, b).data == [d];
  }

  /** calcTypeGivenBlocks, up to large files. */
  function TypeForBlocks(n: nat): ObjectType {
    if n <= 1 then SmallFile
    else if n <= MAX_BLOCKS_MEDIUM then MediumFile
    else LargeFile
  }

  /** How many bytes of a request lie before the end of block idx. */
  function Through(offset: nat, size: nat, idx: nat): nat {
    Max(0, Min(size, (idx + 1) * MAX_BLOCK_SIZE - offset))
  }

  /** A request of `size` bytes at an offset covers the blocks first to end. */
  predicate Spans(offset: nat, size: nat, first: nat, end: nat) {
    && first <= end && size > 0
    && first * MAX_BLOCK_SIZE <= offset < (first + 1) * MAX_BLOCK_SIZE
    && end * MAX_BLOCK_SIZE < offset + size <= (end + 1) * MAX_BLOCK_SIZE
  }

  lemma BlocksOf(offset: nat, size: nat)
    requires size > 0
    ensures Spans(offset, size, offset / MAX_BLOCK_SIZE, (offset + size - 1) / MAX_BLOCK_SIZE)
    ensures offset == offset / MAX_BLOCK_SIZE * MAX_BLOCK_SIZE + offset % MAX_BLOCK_SIZE
  {
  }

  class File {
    const store: Store
    const maxBlocksLarge: nat
    var accessor: Accessor
    ghost var view: Blocks
    ghost var repr: set<object>

    /** `view` is what the accessor holds. */
    ghost predicate Valid()
      reads this, repr, store
    {
      && this in repr && accessor.Obj() in repr && store !in repr
      && accessor.DataStore() == store && accessor.Valid() && view == accessor.View()
      && maxBlocksLarge > MAX_BLOCKS_MEDIUM && (accessor.Large? ==> accessor.m.maxBlocks == maxBlocksLarge)
    }

    constructor (store: Store, maxBlocksLarge: nat, size: nat, key: StoreKey)
      requires store.Valid() && HoldsData(store.blocks, key) && size <= MAX_BLOCK_SIZE
      requires maxBlocksLarge > MAX_BLOCKS_MEDIUM
      ensures Valid() && fresh(repr) && this.store == store && this.maxBlocksLarge == maxBlocksLarge
      ensures view == FromSmall(Resize(BytesOf(store.blocks, key), size))
    {
      this.store := store;
      this.maxBlocksLarge := maxBlocksLarge;
      var s := new SmallFile(store, size, key);
      this.accessor := Small(s);
      this.view := FromSmall(Resize(BytesOf(store.blocks, key), size));
      this.repr := {this, s};
    }

    /** SmallFile.convertTo a multi-block type. */
    method ConvertSmall(t: ObjectType)
      requires Valid() && accessor.Small? && (t.MediumFile? || t.LargeFile?)
      modifies repr
      ensures Valid() && view == old(view) && fresh(repr - old(repr))
      ensures if t.MediumFile? then accessor.Medium? else accessor.Large?
    {
      hide FromSmall, MultiBlockFile.View, SmallFile.Content;
      var m := accessor.s.ConvertToMultiBlock(if t.MediumFile? then MAX_BLOCKS_MEDIUM else maxBlocksLarge);
      accessor := if t.MediumFile? then Medium(m) else Large(m);
      repr := repr + {m};
    }

    /** MediumFile.convertTo a large file: the same keys and held blocks. */
    method ConvertMedium()
      requires Valid() && accessor.Medium?
      modifies repr
      ensures Valid() && view == old(view) && fresh(repr - old(repr)) && accessor.Large?
      ensures accessor.m.toSync == old(accessor.m.toSync)
    {
      hide BlockData;
      var m := accessor.m;
      var large := new MultiBlockFile(store, maxBlocksLarge, m.keys, m.lastBlockBytes, m.toSync);
      accessor := Large(large);
      repr := repr + {large};
    }

    /** convertTo: upgrade the accessor; a type that already suffices is kept. */
    method ConvertTo(t: ObjectType)
      requires Valid() && (t.SmallFile? || t.MediumFile? || t.LargeFile?)
      modifies repr
      ensures Valid() && view == old(view) && fresh(repr - old(repr))
      ensures accessor.Limit()
           >= if t.SmallFile? then 1 else if t.MediumFile? then MAX_BLOCKS_MEDIUM else maxBlocksLarge
      ensures !old(accessor).Small? ==> !accessor.Small? && accessor.m.toSync == old(accessor.m.toSync)
      ensures t.SmallFile? ==> accessor == old(accessor)
    {
      if accessor.Small? && !t.SmallFile? {
        ConvertSmall(t);
      } else if accessor.Medium? && t.LargeFile? {
        ConvertMedium();
      }
    }

    /** writeBlock_: make sure the type can hold the block, then write. */
    method WriteBlock(idx: nat, offset: nat, b: Data) returns (count: nat)
      requires Valid() && idx < maxBlocksLarge && offset < MAX_BLOCK_SIZE && b != []
      modifies repr
      ensures Valid() && count == |Fit(b, offset)|
      ensures fresh(repr - old(repr))
      ensures view == old(view).Write(idx, offset, b)
    {
      hide Accessor.View, Accessor.Valid, Fit, Blocks.Write;
      ConvertTo(TypeForBlocks(idx + 1));
      var r := accessor.WriteBlock(idx, offset, b);
      count := r.count;
      view := view.Write(idx, offset, b);
    }

    /** operateOnBlocks for a write, after the first block. */
    method WriteRest(offset: nat, b: Data, first: nat, end: nat, start: nat, ghost goal: Blocks) returns (count: nat)
      requires Valid() && end < maxBlocksLarge && Spans(offset, |b|, first, end)
      requires start == Through(offset, |b|, first) && 0 < start
      requires WriteFrom(view, first + 1, 0, b[start..]) == goal
      modifies repr
      ensures Valid() && count == |b| && view == goal
      ensures fresh(repr - old(repr))
    {
      hide Valid, Blocks.Write;
      var idx := first;
      count := start;
      while idx < end
        invariant Valid() && first <= idx <= end && count == Through(offset, |b|, idx) && 0 < count
        invariant fresh(repr - old(repr))
        invariant WriteFrom(view, idx + 1, 0, b[count..]) == goal
        decreases end - idx
      {
        idx := idx + 1;
        ghost var rest := b[count..];
        var n := WriteBlock(idx, 0, b[count..]);
        assert rest[n..] == b[count + n..];
        count := count + n;
      }
    }

    /** Write: operateOnBlocks over the blocks touched, the first one from an offset.  The content becomes
        the zero-padded old content overlaid with b, exactly when nothing is brought back from behind
        the end of the file. */
    method Write(offset: nat, b: Data) returns (count: nat)
      requires Valid()
      requires b != [] ==> (offset + |b| - 1) / MAX_BLOCK_SIZE < maxBlocksLarge
      modifies repr
      ensures Valid() && count == |b|
      ensures fresh(repr - old(repr))
      ensures view == WriteRange(old(view), offset, b) && view.WellFormed()
      ensures b != [] ==>
        (view.Contents() == Overlay(old(view).Contents(), offset, b) <==> WritesExactly(old(view), offset, |b|))
      ensures old(view).Clean() ==> view.Clean()
    {
      RangeWritten(view, offset, b);
      hide Blocks.Contents, Overlay, WritesExactly, Blocks.Clean, Blocks.WellFormed, Valid, WriteRange;
      if b == [] {
        return 0;
      }
      count := WriteSome(offset, b);
    }

    /** The same for at least one byte, in terms of blocks. */
    method WriteSome(offset: nat, b: Data) returns (count: nat)
      requires Valid() && b != [] && (offset + |b| - 1) / MAX_BLOCK_SIZE < maxBlocksLarge
      modifies repr
      ensures Valid() && count == |b|
      ensures fresh(repr - old(repr))
      ensures view == WriteRange(old(view), offset, b)
    {
      hide Valid, WriteFrom, WriteRange, Fit, Through, Spans;
      ghost var v := view;
      BlocksOf(offset, |b|);
      FirstWrite(v, offset, b);
      var first, end := offset / MAX_BLOCK_SIZE, (offset + |b| - 1) / MAX_BLOCK_SIZE;
      count := WriteBlock(first, offset % MAX_BLOCK_SIZE, b);
      count := WriteRest(offset, b, first, end, count, WriteRange(v, offset, b));
    }

    /** flush: the changes go to the store and nothing stays held, so that a later truncation leaves what
        it cuts off behind. */
    method Sync() returns (key: StoreKey)
      requires Valid()
      modifies accessor.Obj(), store
      ensures Valid() && view == old(view) && accessor == old(accessor) && repr == old(repr)
      ensures Grows(old(store.blocks), store.blocks) && accessor.NothingHeld() && accessor.Names(key)
    {
      hide Accessor.View, Accessor.Valid, Accessor.NothingHeld, Accessor.Names, Grows;
      key := accessor.Sync();
    }

    /** operateOnBlocks for a read, from one block on. */
    method ReadBlocks(buf: array<byte>, first: nat, o: nat, end: nat) returns (count: nat)
      requires Valid() && o < MAX_BLOCK_SIZE
      modifies accessor.Obj(), buf
      ensures Valid() && view == old(view) && accessor == old(accessor)
      ensures count <= buf.Length && buf[..count] == ReadFrom(view, first, o, buf.Length, end)
      ensures forall i :: count <= i < buf.Length ==> buf[i] == old(buf[i])
    {
      hide Blocks.Readable, Accessor.View, Accessor.Valid, ReadFrom, ReadsInto;
      ghost var goal := ReadFrom(view, first, o, buf.Length, end);
      var idx: nat, at: nat := first, o;
      count := 0;
      assert buf[..0] == [];
      while idx <= end
        invariant Valid() && view == old(view) && accessor == old(accessor)
        invariant at < MAX_BLOCK_SIZE && count <= buf.Length
        invariant buf[..count] + ReadFrom(view, idx, at, buf.Length - count, end) == goal
        invariant forall i :: count <= i < buf.Length ==> buf[i] == old(buf[i])
        decreases end + 1 - idx
      {
        ghost var before := buf[..];
        var r := accessor.ReadBlock(idx, at, buf, count);
        ReadStep(view, idx, at, end, before, buf[..], count, r.count);
        count := count + r.count;
        idx, at := idx + 1, 0;
      }
      NothingRead(view, idx, at, buf.Length - count, end);
      assert buf[..count] + [] == buf[..count];
    }

    /** Read: everything stored from the offset on, as far as the buffer goes; the content, exactly
        when the range does not run across the end of a file with something behind. */
    method Read(offset: nat, buf: array<byte>) returns (count: nat)
      requires Valid()
      modifies accessor.Obj(), buf
      ensures Valid() && view == old(view) && view.WellFormed()
      ensures count <= buf.Length && buf[..count] == ReadRange(view, offset, buf.Length)
      ensures buf[..count] == ContentRange(view, offset, buf.Length) <==> ReadsExactly(view, offset, buf.Length)
      ensures forall i :: count <= i < buf.Length ==> buf[i] == old(buf[i])
    {
      ReadIsContentIff(view, offset, buf.Length);
      hide ContentRange, ReadsExactly, ReadFrom, Accessor.View, Accessor.Valid;
      if buf.Length == 0 {
        return 0;
      }
      count := ReadBlocks(buf, offset / MAX_BLOCK_SIZE, offset % MAX_BLOCK_SIZE,
                          (offset + buf.Length - 1) / MAX_BLOCK_SIZE);
    }

    /** The size part of SetAttr: reconcile the type with the new last block, then truncate. */
    method Truncate(n: nat)
      requires Valid() && (n > 0 ==> (n - 1) / MAX_BLOCK_SIZE < maxBlocksLarge)
      modifies repr
      ensures Valid() && fresh(repr - old(repr))
      ensures !old(accessor).Small? ==>
        view == old(view).Truncate(n, n > 0 && (n - 1) / MAX_BLOCK_SIZE in old(accessor.m.toSync))
      ensures IsTruncated(old(view), view, n)
      ensures old(accessor).Small? ==> view.Clean()
    {
      ghost var v, small := view, accessor.Small?;
      assert small ==> v.Clean() && |v.data| <= 1;
      hide Blocks.Clean, Blocks.Truncate, IsTruncated, Accessor.View, Accessor.Valid;
      if n > 0 {
        BlockCount(n);
        ConvertTo(TypeForBlocks((n - 1) / MAX_BLOCK_SIZE + 1));
      }
      if accessor.Small? {
        TruncateSmall(n);
      } else {
        ghost var held := n > 0 && (n - 1) / MAX_BLOCK_SIZE in accessor.m.toSync;
        TruncateBlocks(n);
        BlocksTruncated(v, n, held);
        if small {
          GrownIsClean(v, n, held);
        }
      }
    }

    method TruncateSmall(n: nat)
      requires Valid() && accessor.Small? && n <= MAX_BLOCK_SIZE
      modifies repr
      ensures Valid() && repr == old(repr) && view.Clean() && IsTruncated(old(view), view, n)
    {
      ghost var c := accessor.s.Content();
      FromSmallKeepsContent(c);
      FromSmallKeepsContent(Resize(c, n));
      hide Blocks.Contents, FromSmall, Blocks.Clean, Resize;
      accessor.s.Truncate(n);
      view := FromSmall(Resize(c, n));
    }

    method TruncateBlocks(n: nat)
      requires Valid() && !accessor.Small? && (n > 0 ==> (n - 1) / MAX_BLOCK_SIZE < accessor.Limit())
      modifies repr
      ensures Valid() && repr == old(repr)
      ensures view == old(view).Truncate(n, n > 0 && (n - 1) / MAX_BLOCK_SIZE in old(accessor.m.toSync))
    {
      hide Blocks.Truncate, MultiBlockFile.View;
      ghost var held := n > 0 && (n - 1) / MAX_BLOCK_SIZE in accessor.m.toSync;
      accessor.m.Truncate(n);
      view := view.Truncate(n, held);
    }
  }

  /** A file cut or extended to n bytes: the common prefix stays, and a clean file is resized exactly. */
  ghost predicate IsTruncated(before: Blocks, after: Blocks, n: nat)
    requires before.WellFormed()
  {
    && after.WellFormed() && after.Length() == n
    && (forall p :: 0 <= p < Min(n, before.Length()) ==> after.Contents()[p] == before.Contents()[p])
    && (before.Clean() ==> after.Contents() == Resize(before.Contents(), n))
  }

  lemma BlocksTruncated(v: Blocks, n: nat, held: bool)
    requires v.WellFormed()
    ensures IsTruncated(v, v.Truncate(n, held), n)
  {
    TruncateResizes(v, n, held);
  }

  lemma ReadStep(f: Blocks, idx: nat, o: nat, end: nat, before: Data, after: Data, count: nat, n: nat)
    requires idx <= end && o < MAX_BLOCK_SIZE && count <= |before|
    requires ReadsInto(f.Readable(idx, o), before, after, count, n)
    ensures |after| == |before| && count + n <= |before|
    ensures before[..count] + ReadFrom(f, idx, o, |before| - count, end)
         == after[..count + n] + ReadFrom(f, idx + 1, 0, |before| - (count + n), end)
    ensures forall i :: count + n <= i < |before| ==> after[i] == before[i]
  {
    hide Blocks.Readable;
    var readable := f.Readable(idx, o);
    var rest := ReadFrom(f, idx + 1, 0, |before| - (count + n), end);
    assert ReadFrom(f, idx, o, |before| - count, end) == readable[..n] + rest;
    hide ReadFrom;
    assert after[..count + n] == before[..count] + readable[..n];
    Associate(before[..count], readable[..n], rest);
  }

  lemma NothingRead(f: Blocks, idx: nat, o: nat, room: nat, end: nat)
    requires idx > end
    ensures ReadFrom(f, idx, o, room, end) == []
  {
  }

  lemma FirstWrite(v: Blocks, offset: nat, b: Data)
    requires b != []
    ensures var first, o := offset / MAX_BLOCK_SIZE, offset % MAX_BLOCK_SIZE; var n := |Fit(b, o)|;
      && 0 < n == Through(offset, |b|, first)
      && WriteRange(v, offset, b) == WriteFrom(v.Write(first, o, b), first + 1, 0, b[n..])
  {
    BlocksOf(offset, |b|);
    hide Blocks.Write;
  }

  /** What a write over several blocks makes of a file. */
  lemma RangeWritten(v: Blocks, offset: nat, b: Data)
    requires v.WellFormed()
    ensures WriteRange(v, offset, b).WellFormed() && (b == [] ==> WriteRange(v, offset, b) == v)
    ensures b != [] ==>
      (WriteRange(v, offset, b).Contents() == Overlay(v.Contents(), offset, b) <==> WritesExactly(v, offset, |b|))
    ensures v.Clean() ==> WriteRange(v, offset, b).Clean()
  {
    if b == [] {
      return;
    }
    hide Blocks.Contents, Overlay, WritesExactly, Blocks.Clean, Blocks.WellFormed, WriteFrom;
    WriteIsOverlayIff(v, offset, b);
    WriteCleans(v, offset / MAX_BLOCK_SIZE, offset % MAX_BLOCK_SIZE, b);
  }

  lemma Associate(a: Data, b: Data, c: Data)
    ensures a + (b + c) == (a + b) + c
  {
  }

  lemma BlockCount(n: nat)
    requires n > 0
    ensures (n - 1) / MAX_BLOCK_SIZE == 0 <==> n <= MAX_BLOCK_SIZE
  {
  }

  /** A small file that is converted for its new length only grows. */
  lemma GrownIsClean(v: Blocks, n: nat, held: bool)
    requires v.WellFormed() && v.Clean() && |v.data| <= 1 && n > MAX_BLOCK_SIZE
    ensures v.Truncate(n, held).Clean()
  {
    BlockCount(n);
  }
}
