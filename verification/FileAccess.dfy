/** Small, medium and large files (daemon/smallfile.go, multiblockfile.go, mediumfile.go, file.go). */
module FileAccess {
  import opened Basics
  import opened ByteMerge
  import opened FileContent
  import opened DataStore

  /** medium files hold 32 MiB in blocks of MAX_BLOCK_SIZE. */
  const MAX_BLOCKS_MEDIUM: nat := 128

  /** The result of a block operation: the count of bytes, or an error. */
  datatype Result = Ok(count: nat) | Err | Panic

  /** The data of each block: the copy held for syncing, or else what the store has. */
  function BlockData(keys: seq<StoreKey>, toSync: map<nat, Data>, stored: map<StoreKey, Block>): (d: seq<Data>)
    ensures |d| == |keys|
    ensures forall i :: 0 <= i < |keys| ==> d[i] == if i in toSync then toSync[i] else BytesOf(stored, keys[i])
  {
    seq(|keys|, i requires 0 <= i < |keys| => if i in toSync then toSync[i] else BytesOf(stored, keys[i]))
  }

  lemma BlockDataUpdate(keys: seq<StoreKey>, toSync: map<nat, Data>, stored: map<StoreKey, Block>, idx: nat, d: Data)
    requires idx < |keys|
    ensures BlockData(keys, toSync[idx := d], stored) == BlockData(keys, toSync, stored)[idx := d]
  {
  }

  lemma BlockDataExpand(keys: seq<StoreKey>, toSync: map<nat, Data>, stored: map<StoreKey, Block>,
                        n: nat, empty: StoreKey)
    requires n >= |keys| && (forall i :: i in toSync ==> i < |keys|) && BytesOf(stored, empty) == []
    ensures BlockData(keys + Repeat(empty, n - |keys|), toSync, stored)
         == BlockData(keys, toSync, stored) + Repeat([], n - |keys|)
  {
  }

  lemma ExpandedBlocks(keys: seq<StoreKey>, toSync: map<nat, Data>, stored: map<StoreKey, Block>,
                       n: nat, empty: StoreKey, last: nat)
    requires n >= |keys| && (forall i :: i in toSync ==> i < |keys|) && BytesOf(stored, empty) == []
    ensures Blocks(BlockData(keys + Repeat(empty, n - |keys|), toSync, stored), 0)
         == Blocks(BlockData(keys, toSync, stored), last).Expand(n)
  {
    hide BlockData, Repeat;
    BlockDataExpand(keys, toSync, stored, n, empty);
  }

  lemma ExpandedKeysHold(keys: seq<StoreKey>, stored: map<StoreKey, Block>, n: nat, empty: StoreKey)
    requires n >= |keys| && HoldsData(stored, empty) && forall i :: 0 <= i < |keys| ==> HoldsData(stored, keys[i])
    ensures var more := keys + Repeat(empty, n - |keys|);
      |more| == n && forall i :: 0 <= i < |more| ==> HoldsData(stored, more[i])
  {
  }

  lemma BlockDataCut(keys: seq<StoreKey>, toSync: map<nat, Data>, stored: map<StoreKey, Block>, n: nat)
    requires n <= |keys|
    ensures BlockData(keys[..n], CutMap(toSync, n), stored) == BlockData(keys, toSync, stored)[..n]
  {
  }

  function CutMap(toSync: map<nat, Data>, n: nat): map<nat, Data> {
    map i | i in toSync && i < n :: toSync[i]
  }

  lemma BlockDataGrows(keys: seq<StoreKey>, toSync: map<nat, Data>,
                       before: map<StoreKey, Block>, after: map<StoreKey, Block>)
    requires Grows(before, after) && forall i :: 0 <= i < |keys| ==> keys[i] in before
    ensures BlockData(keys, toSync, after) == BlockData(keys, toSync, before)
  {
  }

  lemma BlockDataSync(keys: seq<StoreKey>, toSync: map<nat, Data>,
                      before: map<StoreKey, Block>, after: map<StoreKey, Block>, i: nat, key: StoreKey)
    requires i in toSync && i < |keys| && |toSync[i]| <= MAX_BLOCK_SIZE
    requires forall j :: 0 <= j < |keys| ==> HoldsData(before, keys[j])
    requires Grows(before, after) && key in after && after[key] == DataBlock(toSync[i])
    ensures BlockData(keys[i := key], toSync - {i}, after) == BlockData(keys, toSync, before)
    ensures var keys' := keys[i := key]; forall j :: 0 <= j < |keys'| ==> HoldsData(after, keys'[j])
  {
    var keys' := keys[i := key];
    var a, b := BlockData(keys', toSync - {i}, after), BlockData(keys, toSync, before);
    forall j | 0 <= j < |keys| ensures a[j] == b[j] && HoldsData(after, keys'[j]) {
      assert HoldsData(before, keys[j]);
      assert keys'[j] == if j == i then key else keys[j];
    }
  }

  /** The key names a well-formed multi-block file whose blocks are all stored. */
  ghost predicate IsFile(stored: map<StoreKey, Block>, key: StoreKey) {
    && key in stored && stored[key].FileBlock?
    && stored[key].blockSize == MAX_BLOCK_SIZE && stored[key].last <= MAX_BLOCK_SIZE
    && (stored[key].keys == [] ==> stored[key].last == 0)
    && forall i :: 0 <= i < |stored[key].keys| ==> HoldsData(stored, stored[key].keys[i])
  }

  /** The blocks that a key names. */
  ghost function StoredView(stored: map<StoreKey, Block>, key: StoreKey): Blocks
    requires IsFile(stored, key)
  {
    Blocks(BlockData(stored[key].keys, map[], stored), stored[key].last)
  }

  /** What a key names never changes while the store grows. */
  lemma StoredViewIsStable(before: map<StoreKey, Block>, after: map<StoreKey, Block>, key: StoreKey)
    requires IsFile(before, key) && Grows(before, after)
    ensures IsFile(after, key) && StoredView(after, key) == StoredView(before, key)
  {
    BlockDataGrows(before[key].keys, map[], before, after);
  }

  class MultiBlockFile {
    const store: Store
    const maxBlocks: nat
    var keys: seq<StoreKey>
    var lastBlockBytes: nat
    var toSync: map<nat, Data>

    ghost predicate Valid()
      reads this, store
    {
      && store.Valid()
      && |keys| <= maxBlocks
      && (forall i :: 0 <= i < |keys| ==> HoldsData(store.blocks, keys[i]))
      && (forall i :: i in toSync ==> i < |keys| && |toSync[i]| <= MAX_BLOCK_SIZE)
      && lastBlockBytes <= MAX_BLOCK_SIZE
      && (|keys| == 0 ==> lastBlockBytes == 0)
    }

    /** The blocks this object stands for. */
    ghost function View(): (f: Blocks)
      requires Valid()
      reads this, store
      ensures f.WellFormed() && |f.data| == |keys|
    {
      Blocks(BlockData(keys, toSync, store.blocks), lastBlockBytes)
    }

    /** The shell constructor: an accessor with the given blocks held for syncing. */
    constructor (store: Store, maxBlocks: nat, keys: seq<StoreKey>, last: nat, toSync: map<nat, Data>)
      requires store.Valid()
      requires |keys| <= maxBlocks && forall i :: 0 <= i < |keys| ==> HoldsData(store.blocks, keys[i])
      requires forall i :: i in toSync ==> i < |keys| && |toSync[i]| <= MAX_BLOCK_SIZE
      requires last <= MAX_BLOCK_SIZE && (|keys| == 0 ==> last == 0)
      ensures Valid() && this.store == store && this.maxBlocks == maxBlocks
      ensures View() == Blocks(BlockData(keys, toSync, store.blocks), last) && this.toSync == toSync
    {
      this.store := store;
      this.maxBlocks := maxBlocks;
      this.keys := keys;
      this.lastBlockBytes := last;
      this.toSync := toSync;
    }

    /** Exceeding the maximum panics in the source. */
    method ExpandTo(length: nat)
      requires Valid() && |keys| <= length <= maxBlocks
      modifies this
      ensures Valid() && |keys| == length && View() == old(View()).Expand(length) && toSync == old(toSync)
    {
      hide BlockData, HoldsData, Repeat, Blocks.Expand, Blocks.WellFormed;
      var empty := store.EmptyBlockKey();
      ExpandedBlocks(keys, toSync, store.blocks, length, empty, lastBlockBytes);
      ExpandedKeysHold(keys, store.blocks, length, empty);
      keys := keys + Repeat(empty, length - |keys|);
      lastBlockBytes := 0;
    }

    /** Copy block data into buf from position start on, zero-filling to the expected size. */
    method ReadBlock(idx: nat, offset: nat, buf: array<byte>, start: nat) returns (r: Result)
      requires Valid() && start <= buf.Length
      modifies buf
      ensures Valid() && View() == old(View())
      ensures if offset >= MAX_BLOCK_SIZE then r.Err? else r.Ok?
      ensures r.Ok? ==> ReadsInto(View().Readable(idx, offset), old(buf[..]), buf[..], start, r.count)
    {
      hide Blocks.Readable, Resize, ReadsInto;
      if offset >= MAX_BLOCK_SIZE {
        return Err;
      }
      ghost var f := View();
      if idx >= |keys| {
        NothingReadable(f, idx, offset);
        ReadsNothing(buf[..], start);
        return Ok(0);
      }
      var expected := if idx == |keys| - 1 then lastBlockBytes else MAX_BLOCK_SIZE;
      if offset >= expected {
        NothingReadable(f, idx, offset);
        ReadsNothing(buf[..], start);
        return Ok(0);
      }
      ReadableBlock(f, idx, offset);
      var block := GetBlock(idx);
      var n := CopyBlock(block, offset, expected, buf, start);
      r := Ok(n);
    }

    /** Keep new data for one block, to be synced later. */
    method HoldBlock(idx: nat, d: Data)
      requires Valid() && idx < |keys| && |d| <= MAX_BLOCK_SIZE
      modifies this
      ensures Valid() && keys == old(keys)
      ensures View() == Blocks(old(View()).data[idx := d],
                               if idx == |keys| - 1 then Max(old(lastBlockBytes), |d|) else old(lastBlockBytes))
    {
      ReplaceHeld(idx, d);
      if idx == |keys| - 1 && lastBlockBytes < |d| {
        lastBlockBytes := |d|;
      }
    }

    /** writeBlock within the blocks there are. */
    method WriteWithin(idx: nat, offset: nat, b: Data)
      requires Valid() && idx < |keys| && offset < MAX_BLOCK_SIZE
      modifies this
      ensures Valid() && keys == old(keys)
      ensures b != [] ==> View() == old(View()).WriteIn(idx, offset, b)
      ensures b == [] && offset == 0 ==> View() == old(View())
    {
      hide BufferWrite;
      if b == [] {
        PadBlock(idx, offset);
        return;
      }
      var block := GetBlock(idx);
      BufferWriteBound(block, b, offset);
      HoldBlock(idx, BufferWrite(block, b, offset));
    }

    /** Writing nothing pads a held block up to the offset. */
    method PadBlock(idx: nat, offset: nat)
      requires Valid() && idx < |keys| && offset < MAX_BLOCK_SIZE
      modifies this
      ensures Valid() && keys == old(keys)
      ensures offset == 0 ==> View() == old(View())
    {
      if idx in toSync {
        assert offset == 0 ==> BufferWrite(toSync[idx], [], offset) == toSync[idx];
        BufferWriteBound(toSync[idx], [], offset);
        hide BufferWrite;
        ghost var before := toSync;
        toSync := toSync[idx := BufferWrite(toSync[idx], [], offset)];
        assert offset == 0 ==> toSync == before;
      }
    }

    /** writeBlock.  An empty write is refused, after any expansion and padding; an index equal to the
        maximum passes the check and panics in the expansion. */
    method WriteBlock(idx: nat, offset: nat, b: Data) returns (r: Result)
      requires Valid()
      modifies this
      ensures Valid()
      ensures r.Ok? <==> idx < maxBlocks && offset < MAX_BLOCK_SIZE && b != []
      ensures r.Panic? <==> idx == maxBlocks && offset < MAX_BLOCK_SIZE
      ensures r.Ok? ==> r.count == |Fit(b, offset)| && View() == old(View()).Write(idx, offset, b)
      ensures idx < maxBlocks && offset == 0 && b == [] ==>
        View() == if idx >= |old(View()).data| then old(View()).Expand(idx + 1) else old(View())
    {
      hide Blocks.WriteIn, Blocks.Expand;
      if idx > maxBlocks {
        return Err;
      }
      if offset >= MAX_BLOCK_SIZE {
        return Err;
      }
      if idx == maxBlocks {
        return Panic;
      }
      hide View, Valid;
      EnsureBlock(idx);
      WriteWithin(idx, offset, b);
      r := if b != [] then Ok(|Fit(b, offset)|) else Err;
    }

    /** The file is expanded to hold a block. */
    method EnsureBlock(idx: nat)
      requires Valid() && idx < maxBlocks
      modifies this
      ensures Valid() && idx < |keys|
      ensures View() == if idx >= |old(View()).data| then old(View()).Expand(idx + 1) else old(View())
    {
      hide Blocks.Expand, View;
      if idx >= |keys| {
        ExpandTo(idx + 1);
      }
    }

    method GetBlock(idx: nat) returns (d: Data)
      requires Valid() && idx < |keys|
      ensures d == View().data[idx]
    {
      d := if idx in toSync then toSync[idx] else store.blocks[keys[idx]].bytes;
    }

    /** fileLength, in 64 bits: without blocks the subtraction wraps around. */
    method FileLength() returns (n: nat)
      requires Valid()
      ensures n == if View().data == [] then UINT64_RANGE - MAX_BLOCK_SIZE else View().Length()
    {
      n := if |keys| == 0 then UINT64_RANGE - MAX_BLOCK_SIZE else MAX_BLOCK_SIZE * (|keys| - 1) + lastBlockBytes;
    }

    method Truncate(n: nat)
      requires Valid() && (n - 1) / MAX_BLOCK_SIZE < maxBlocks
      modifies this
      ensures Valid()
      ensures View() == old(View()).Truncate(n, n > 0 && (n - 1) / MAX_BLOCK_SIZE in old(toSync))
    {
      ghost var f := View();
      if n == 0 {
        toSync := map[];
        keys := [];
        lastBlockBytes := 0;
        assert View().data == [];
        return;
      }
      TruncateParts(n);
      var end := (n - 1) / MAX_BLOCK_SIZE;
      var lastLen := n - end * MAX_BLOCK_SIZE;
      TruncateCases(f, n, end in toSync, end, lastLen);
      TruncateTo(end, lastLen);
    }

    /** truncate to a positive length, given the new last block and its length. */
    method TruncateTo(end: nat, lastLen: nat)
      requires Valid() && end < maxBlocks && 0 < lastLen <= MAX_BLOCK_SIZE
      modifies this
      ensures Valid()
      ensures View() ==
              if end + 1 > old(|keys|) then old(View()).Expand(end + 1).(last := lastLen)
              else if end + 1 == old(|keys|) && lastLen > old(lastBlockBytes) then old(View()).(last := lastLen)
              else
                var kept := old(View()).data[..end + 1];
                Blocks(if end in old(toSync) then kept[end := Resize(kept[end], lastLen)] else kept, lastLen)
    {
      hide Resize, Repeat;
      var expanding := end + 1 > |keys|;
      if expanding {
        ExpandTo(end + 1);
      }
      if (end + 1 == |keys| && lastLen > lastBlockBytes) || expanding {
        lastBlockBytes := lastLen;
        return;
      }
      CutTo(end + 1, lastLen);
    }

    /** One round of sync's loop: publish a held block and drop the copy. */
    method SyncBlock(i: nat)
      requires Valid() && i in toSync
      modifies this, store
      ensures Valid() && View() == old(View()) && Grows(old(store.blocks), store.blocks)
      ensures toSync == old(toSync) - {i} && |keys| == old(|keys|) && lastBlockBytes == old(lastBlockBytes)
    {
      ghost var stored := store.blocks;
      var key := store.Set(DataBlock(toSync[i]));
      BlockDataSync(keys, toSync, stored, store.blocks, i, key);
      keys := keys[i := key];
      toSync := toSync - {i};
    }

    /** Publish the held blocks in any order, then the list of keys.  The content does not change,
        and the returned key names it. */
    method Sync() returns (key: StoreKey)
      requires Valid()
      modifies this, store
      ensures Valid() && View() == old(View()) && Grows(old(store.blocks), store.blocks)
      ensures toSync == map[]
      ensures IsFile(store.blocks, key) && StoredView(store.blocks, key) == View()
    {
      hide View, HoldsData, StoredView, IsFile;
      while toSync.Keys != {}
        invariant Valid() && View() == old(View()) && Grows(old(store.blocks), store.blocks)
        decreases |toSync.Keys|
      {
        var i :| i in toSync.Keys;
        ghost var before := toSync.Keys;
        SyncBlock(i);
        assert toSync.Keys == before - {i};
      }
      assert toSync == map[];
      key := SyncKeys();
    }

    /** The end of sync: publish the list of keys. */
    method SyncKeys() returns (key: StoreKey)
      requires Valid() && toSync == map[]
      modifies store
      ensures Valid() && View() == old(View()) && Grows(old(store.blocks), store.blocks)
      ensures IsFile(store.blocks, key) && StoredView(store.blocks, key) == View()
    {
      ghost var stored := store.blocks;
      key := store.Set(FileBlock(MAX_BLOCK_SIZE, lastBlockBytes, keys));
      BlockDataGrows(keys, toSync, stored, store.blocks);
    }

    /** reload: take over what a key names, dropping everything held. */
    method Reload(key: StoreKey)
      requires Valid() && IsFile(store.blocks, key) && |store.blocks[key].keys| <= maxBlocks
      modifies this
      ensures Valid() && View() == StoredView(store.blocks, key)
    {
      var b := store.blocks[key];
      lastBlockBytes := b.last;
      keys := b.keys;
      toSync := map[];
    }

    /** The shrinking part of truncate.  The last block is cut in place only if it is held. */
    method CutTo(count: nat, lastLen: nat)
      requires Valid() && 0 < count <= |keys| && lastLen <= MAX_BLOCK_SIZE
      modifies this
      ensures Valid()
      ensures var kept := old(View()).data[..count];
              View() == Blocks(if count - 1 in old(toSync) then kept[count - 1 := Resize(kept[count - 1], lastLen)]
                               else kept, lastLen)
    {
      CutKeys(count);
      lastBlockBytes := lastLen;
      if count - 1 in toSync {
        ReplaceHeld(count - 1, Resize(toSync[count - 1], lastLen));
      }
    }

    /** Drop the blocks from `count` on, and what is held for them. */
    method CutKeys(count: nat)
      requires Valid() && 0 < count <= |keys|
      modifies this
      ensures Valid() && |keys| == count && lastBlockBytes == old(lastBlockBytes)
      ensures View().data == old(View()).data[..count]
      ensures count - 1 in toSync <==> count - 1 in old(toSync)
      ensures count - 1 in toSync ==> toSync[count - 1] == old(View()).data[count - 1]
    {
      BlockDataCut(keys, toSync, store.blocks, count);
      toSync := CutMap(toSync, count);
      keys := keys[..count];
    }

    /** Change a held block in place. */
    method ReplaceHeld(idx: nat, d: Data)
      requires Valid() && idx < |keys| && |d| <= MAX_BLOCK_SIZE
      modifies this`toSync
      ensures Valid() && toSync == old(toSync)[idx := d]
      ensures View() == old(View()).(data := old(View()).data[idx := d])
    {
      BlockDataUpdate(keys, toSync, store.blocks, idx, d);
      toSync := toSync[idx := d];
    }
  }

  class SmallFile {
    const store: Store
    var key: StoreKey
    var size: nat
    var buf: Option<Data>

    ghost predicate Valid()
      reads this, store
    {
      && store.Valid() && HoldsData(store.blocks, key) && size <= MAX_BLOCK_SIZE
      && (buf.Some? ==> |buf.value| <= MAX_BLOCK_SIZE)
    }

    /** The buffer if there is one, or else the stored block cut or filled to the recorded size. */
    ghost function Content(): (c: Data)
      requires Valid()
      reads this, store
      ensures |c| <= MAX_BLOCK_SIZE
    {
      if buf.Some? then buf.value else Resize(BytesOf(store.blocks, key), size)
    }

    constructor (store: Store, size: nat, key: StoreKey)
      requires store.Valid() && HoldsData(store.blocks, key) && size <= MAX_BLOCK_SIZE
      ensures Valid() && this.store == store && Content() == Resize(BytesOf(store.blocks, key), size)
    {
      this.store := store;
      this.size := size;
      this.key := key;
      this.buf := None;
    }

    /** getBuffer: read access; a block of another size is first copied and resized. */
    method GetBuffer() returns (d: Data)
      requires Valid()
      modifies this
      ensures Valid() && d == Content() == old(Content())
    {
      if buf.Some? {
        return buf.value;
      }
      d := store.blocks[key].bytes;
      if |d| != size {
        d := Resize(d, size);
        buf := Some(d);
      }
    }

    /** getBufferToDirty: a private copy to be changed. */
    method GetBufferToDirty() returns (d: Data)
      requires Valid()
      modifies this
      ensures Valid() && buf == Some(d) && d == Content() == old(Content())
    {
      if buf.None? {
        buf := Some(Resize(store.blocks[key].bytes, size));
      }
      d := buf.value;
    }

    method ReadBlock(idx: nat, offset: nat, out: array<byte>, start: nat) returns (r: Result)
      requires Valid() && start <= out.Length
      modifies this, out
      ensures Valid() && Content() == old(Content())
      ensures if offset >= MAX_BLOCK_SIZE then r.Err? else r.Ok?
      ensures r.Ok? ==> ReadsInto(if idx > 0 || offset > |Content()| then [] else Content()[offset..],
                                  old(out[..]), out[..], start, r.count)
    {
      if offset >= MAX_BLOCK_SIZE {
        return Err;
      }
      ReadsNothing(out[..], start);
      if idx > 0 {
        return Ok(0);
      }
      var d := GetBuffer();
      if offset >= |d| {
        return Ok(0);
      }
      var n := CopyBlock(d, offset, |d|, out, start);
      assert Resize(d, |d|) == d;
      r := Ok(n);
    }

    method WriteBlock(idx: nat, offset: nat, b: Data) returns (r: Result)
      requires Valid()
      modifies this
      ensures Valid()
      ensures if idx == 0 && offset < MAX_BLOCK_SIZE && b != [] then r.Ok? else r.Err?
      ensures b == [] && offset == 0 ==> Content() == old(Content())
      ensures r.Ok? ==> r.count == |Fit(b, offset)| && Content() == Overlay(old(Content()), offset, Fit(b, offset))
    {
      if idx > 0 || offset >= MAX_BLOCK_SIZE {
        return Err;
      }
      var d := GetBufferToDirty();
      BufferWriteOverlays(d, b, offset);
      buf := Some(BufferWrite(d, b, offset));
      r := if b != [] then Ok(|Fit(b, offset)|) else Err;
    }

    /** sync: the key of the content, unless the stored block was never read and has another size. */
    method Sync() returns (k: StoreKey)
      requires Valid()
      modifies this, store
      ensures Valid() && Content() == old(Content()) && Grows(old(store.blocks), store.blocks)
      ensures buf.None? && k == key && HoldsData(store.blocks, k)
      ensures old(buf).Some? || |BytesOf(store.blocks, k)| == size <==> BytesOf(store.blocks, k) == Content()
    {
      if buf.None? {
        return key;
      }
      var d := buf.value;
      buf := None;
      k := store.Set(DataBlock(d));
      key := k;
      size := |d|;
    }

    method Reload(k: StoreKey)
      requires Valid() && HoldsData(store.blocks, k)
      modifies this
      ensures Valid() && Content() == BytesOf(store.blocks, k)
    {
      key := k;
      buf := Some(store.blocks[k].bytes);
      size := |buf.value|;
    }

    method Truncate(n: nat)
      requires Valid() && n <= MAX_BLOCK_SIZE
      modifies this
      ensures Valid() && Content() == Resize(old(Content()), n)
    {
      var d := GetBufferToDirty();
      buf := Some(Resize(d, n));
    }

    /** convertToMultiBlock. */
    method ConvertToMultiBlock(maxBlocks: nat) returns (m: MultiBlockFile)
      requires Valid() && maxBlocks > 0
      modifies this
      ensures Valid() && fresh(m) && m.Valid() && m.store == store && m.maxBlocks == maxBlocks
      ensures m.View() == FromSmall(old(Content()))
    {
      var d := GetBuffer();
      if d == [] {
        m := new MultiBlockFile(store, maxBlocks, [], 0, map[]);
      } else {
        d := GetBufferToDirty();
        m := new MultiBlockFile(store, maxBlocks, [store.EmptyBlockKey()], |d|, map[0 := d]);
        assert BlockData([store.EmptyBlockKey()], map[0 := d], store.blocks) == [d];
      }
    }
  }

  /** buf now holds the first bytes of `source` from position start on, as many as fit, and is
      otherwise unchanged. */
  ghost predicate ReadsInto(source: Data, before: Data, after: Data, start: nat, n: nat) {
    && |before| == |after| && start <= |after|
    && n == Min(|source|, |after| - start)
    && (forall i :: start <= i < start + n ==> after[i] == source[i - start])
    && (forall i :: 0 <= i < |after| && !(start <= i < start + n) ==> after[i] == before[i])
  }

  lemma ReadsNothing(buf: Data, start: nat)
    requires start <= |buf|
    ensures ReadsInto([], buf, buf, start, 0)
  {
  }

  /** block.Read followed by the zero-filling loop of readBlock. */
  method CopyBlock(block: Data, offset: nat, expected: nat, buf: array<byte>, start: nat) returns (n: nat)
    requires offset < expected && start <= buf.Length
    modifies buf
    ensures ReadsInto(Resize(block, Max(expected, |block|))[offset..], old(buf[..]), buf[..], start, n)
  {
    hide Resize;
    ghost var source := Resize(block, Max(expected, |block|))[offset..];
    n := 0;
    var copied := if offset < |block| then Min(|block| - offset, buf.Length - start) else 0;
    while n < copied
      invariant 0 <= n <= copied
      invariant forall i :: start <= i < start + n ==> buf[i] == source[i - start]
      invariant forall i :: 0 <= i < buf.Length && !(start <= i < start + n) ==> buf[i] == old(buf[i])
    {
      buf[start + n] := block[offset + n];
      n := n + 1;
    }
    while n < expected - offset && start + n < buf.Length
      invariant copied <= n <= Min(|source|, buf.Length - start)
      invariant forall i :: start <= i < start + n ==> buf[i] == source[i - start]
      invariant forall i :: 0 <= i < buf.Length && !(start <= i < start + n) ==> buf[i] == old(buf[i])
    {
      buf[start + n] := 0;
      n := n + 1;
    }
    assert n == Min(|source|, buf.Length - start);
  }
}
