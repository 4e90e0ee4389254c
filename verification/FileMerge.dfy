/** The intra-file merge of mergeFile (daemon/merge.go:879-986), block by block on file accessors. */
module FileMerge {
  import opened Basics
  import opened Objects
  import opened ByteMerge
  import opened FileContent
  import opened FileRanges
  import opened StoredMerge
  import opened FileAccess
  import opened Files

  // ---------------------------------------------------------------------------------------------
  // The loops

  /** The merge loops over one block's buffers: with a base byte where base reaches, without one
      beyond it. */
  method MergeBuffers(baseBuf: array<byte>, baseRead: nat, iterBuf: array<byte>, iterRead: nat,
                      otherBuf: array<byte>, older: bool)
    requires baseBuf != otherBuf && iterBuf != otherBuf
    requires baseRead <= baseBuf.Length && iterRead <= iterBuf.Length && iterRead <= otherBuf.Length
    modifies otherBuf
    ensures forall i :: 0 <= i < iterRead ==>
              otherBuf[i]
              == LoopByte(if i < baseRead then Some(baseBuf[i]) else None, iterBuf[i], old(otherBuf[i]), older)
    ensures forall i :: iterRead <= i < otherBuf.Length ==> otherBuf[i] == old(otherBuf[i])
  {
    var refs := if iterRead < baseRead then iterRead else baseRead;
    for i := 0 to refs
      invariant forall j :: 0 <= j < i ==>
                  otherBuf[j] == LoopByte(Some(baseBuf[j]), iterBuf[j], old(otherBuf[j]), older)
      invariant forall j :: i <= j < otherBuf.Length ==> otherBuf[j] == old(otherBuf[j])
    {
      if otherBuf[i] == baseBuf[i] || (older && otherBuf[i] != baseBuf[i] && iterBuf[i] != baseBuf[i]) {
        otherBuf[i] := iterBuf[i];
      }
    }
    var k := baseRead;
    while k < iterRead
      invariant refs <= k && (k <= iterRead || k == baseRead)
      invariant forall j :: 0 <= j < refs ==>
                  otherBuf[j] == LoopByte(Some(baseBuf[j]), iterBuf[j], old(otherBuf[j]), older)
      invariant forall j :: baseRead <= j < k && j < iterRead ==>
                  otherBuf[j] == LoopByte(None, iterBuf[j], old(otherBuf[j]), older)
      invariant forall j :: k <= j < otherBuf.Length ==> otherBuf[j] == old(otherBuf[j])
      invariant forall j :: iterRead <= j < otherBuf.Length ==> otherBuf[j] == old(otherBuf[j])
    {
      if older {
        otherBuf[k] := iterBuf[k];
      }
      k := k + 1;
    }
  }

  /** Everything an accessor's state depends on. */
  function Footprint(a: Accessor): set<object> {
    {a.Obj(), a.DataStore()}
  }

  /** The accessors of one merge are different objects, over stores that the merge does not write. */
  ghost predicate Separate(base: Option<Accessor>, iter: Accessor, other: Accessor) {
    && iter.Obj() !in Footprint(other) && other.Obj() !in Footprint(iter)
    && (base.Some? ==>
          && base.value.Obj() !in Footprint(other) + Footprint(iter)
          && other.Obj() !in Footprint(base.value) && iter.Obj() !in Footprint(base.value))
  }

  /** Accessors are not arrays. */
  lemma BuffersAreApart(a: Accessor, buf: array<byte>)
    ensures buf !in Footprint(a)
  {
  }

  ghost predicate Shows(a: Accessor, v: Blocks)
    reads a.Obj(), a.DataStore()
  {
    a.Valid() && a.View() == v
  }

  lemma BlockBytes(f: Blocks, idx: nat, before: Data, after: Data, n: nat)
    requires f.WellFormed() && |before| == MAX_BLOCK_SIZE
    requires ReadsInto(f.Readable(idx, 0), before, after, 0, n)
    ensures n == |f.Readable(idx, 0)| == InBlock(Whole(f), idx) <= |after|
    ensures forall j :: 0 <= j < n ==> after[j] == Whole(f)[idx * MAX_BLOCK_SIZE + j]
  {
    ReadableIsExposed(f, idx);
    var readable, c := f.Readable(idx, 0), Whole(f);
    hide Blocks.Readable, Whole;
    forall j | 0 <= j < n ensures after[j] == c[idx * MAX_BLOCK_SIZE + j] {
      assert after[j] == readable[j];
    }
  }

  /** Read a whole block into a buffer. */
  method ReadWhole(a: Accessor, idx: nat, buf: array<byte>, ghost v: Blocks) returns (n: nat)
    requires Shows(a, v) && buf.Length == MAX_BLOCK_SIZE
    modifies a.Obj(), buf
    ensures Shows(a, v) && v.WellFormed() && n == |v.Readable(idx, 0)| == InBlock(Whole(v), idx) <= MAX_BLOCK_SIZE
    ensures forall j :: 0 <= j < n ==> buf[j] == Whole(v)[idx * MAX_BLOCK_SIZE + j]
  {
    hide Accessor.View, Accessor.Valid, ReadsInto, Blocks.Readable;
    ghost var before := buf[..];
    var r := a.ReadBlock(idx, 0, buf, 0);
    BlockBytes(v, idx, before, buf[..], r.count);
    n := r.count;
  }

  /** The accessor can hold every block that it has. */
  lemma BlocksWithinLimit(a: Accessor, idx: nat)
    requires a.Valid() && idx < |a.View().data|
    ensures idx < a.Limit()
  {
  }

  /** Read the same block of three files. */
  method ReadThree(base: Option<Accessor>, iter: Accessor, other: Accessor, idx: nat,
                   baseBuf: array<byte>, iterBuf: array<byte>, otherBuf: array<byte>,
                   ghost b: Option<Blocks>, ghost i: Blocks, ghost w: Blocks)
    returns (baseRead: nat, iterRead: nat, otherRead: nat)
    requires Separate(base, iter, other) && (base.Some? <==> b.Some?)
    requires baseBuf != otherBuf && iterBuf != otherBuf && baseBuf != iterBuf
    requires baseBuf.Length == iterBuf.Length == otherBuf.Length == MAX_BLOCK_SIZE
    requires base.Some? ==> Shows(base.value, b.value) && b.value.WellFormed()
    requires Shows(iter, i) && i.WellFormed() && Shows(other, w) && w.WellFormed()
    modifies if base.Some? then {base.value.Obj()} else {}, iter.Obj(), other.Obj(), baseBuf, iterBuf, otherBuf
    ensures base.Some? ==> Shows(base.value, b.value)
    ensures Shows(iter, i) && Shows(other, w)
    ensures BufferHolds(WholeOption(b), idx, baseBuf[..], baseRead)
    ensures BufferHolds(Some(Whole(i)), idx, iterBuf[..], iterRead)
    ensures BufferHolds(Some(Whole(w)), idx, otherBuf[..], otherRead) && otherRead == |w.Readable(idx, 0)|
  {
    hide Accessor.View, Accessor.Valid, Whole, Blocks.Readable, Blocks.WellFormed;
    BuffersAreApart(iter, baseBuf);
    BuffersAreApart(iter, otherBuf);
    BuffersAreApart(other, baseBuf);
    BuffersAreApart(other, iterBuf);
    if base.Some? {
      BuffersAreApart(base.value, iterBuf);
      BuffersAreApart(base.value, otherBuf);
    }
    baseRead := 0;
    if base.Some? {
      baseRead := ReadWhole(base.value, idx, baseBuf, b.value);
    }
    iterRead := ReadWhole(iter, idx, iterBuf, i);
    otherRead := ReadWhole(other, idx, otherBuf, w);
  }

  /** The first n bytes of a buffer are a block of the data. */
  predicate BufferHolds(c: Option<Data>, idx: nat, buf: Data, n: nat) {
    && n == (if c.Some? then InBlock(c.value, idx) else 0) && n <= |buf|
    && forall j :: 0 <= j < n ==> buf[j] == c.value[idx * MAX_BLOCK_SIZE + j]
  }

  /** After the byte loops the buffer holds the merged block. */
  lemma MergedBuffer(b: Option<Data>, i: Data, o: Data, older: bool, idx: nat, baseBuf: Data, baseRead: nat,
                     iterBuf: Data, iterRead: nat, before: Data, after: Data, otherRead: nat)
    requires BufferHolds(b, idx, baseBuf, baseRead) && BufferHolds(Some(i), idx, iterBuf, iterRead)
    requires BufferHolds(Some(o), idx, before, otherRead) && |after| == |before| && iterRead <= |after|
    requires forall j :: 0 <= j < iterRead ==>
               after[j] == LoopByte(if j < baseRead then Some(baseBuf[j]) else None, iterBuf[j], before[j], older)
    requires forall j :: iterRead <= j < |after| ==> after[j] == before[j]
    ensures forall j :: 0 <= j < otherRead ==>
              var p := idx * MAX_BLOCK_SIZE + j;
              after[..otherRead][j] == if p < |i| then LoopByte(BaseAt(b, p), i[p], o[p], older) else o[p]
  {
    forall j | 0 <= j < otherRead
      ensures var p := idx * MAX_BLOCK_SIZE + j;
        after[..otherRead][j] == if p < |i| then LoopByte(BaseAt(b, p), i[p], o[p], older) else o[p]
    {
      var p := idx * MAX_BLOCK_SIZE + j;
      assert j < iterRead <==> p < |i|;
      assert BaseAt(b, p) == if j < baseRead then Some(baseBuf[j]) else None;
    }
  }

  /** The body of the block operation: read three blocks, merge them, write `other` back; false if the
      assertion that the smaller file has no more data fails. */
  method MergeOneBlock(base: Option<Accessor>, iter: Accessor, other: Accessor, idx: nat, older: bool,
                       baseBuf: array<byte>, iterBuf: array<byte>, otherBuf: array<byte>,
                       ghost b: Option<Blocks>, ghost i: Blocks, ghost o: Blocks, ghost w: Blocks)
    returns (ok: bool)
    requires Separate(base, iter, other) && (base.Some? <==> b.Some?)
    requires baseBuf != otherBuf && iterBuf != otherBuf && baseBuf != iterBuf
    requires baseBuf.Length == iterBuf.Length == otherBuf.Length == MAX_BLOCK_SIZE
    requires base.Some? ==> Shows(base.value, b.value) && b.value.WellFormed()
    requires Shows(iter, i) && i.WellFormed() && o.WellFormed() && idx * MAX_BLOCK_SIZE < o.Length()
    requires Shows(other, w) && Progress(w, WholeOption(b), Whole(i), o, older, idx)
    modifies if base.Some? then {base.value.Obj()} else {}, iter.Obj(), other.Obj(), baseBuf, iterBuf, otherBuf
    ensures base.Some? ==> Shows(base.value, b.value)
    ensures Shows(iter, i)
    ensures ok <==> InBlock(Whole(i), idx) <= InBlock(Whole(o), idx)
    ensures ok ==> Shows(other, w.Write(idx, 0, MergedChunk(WholeOption(b), Whole(i), Whole(o), older, idx)))
  {
    hide Accessor.View, Accessor.Valid, Whole, Progress, Blocks.Readable, Blocks.Write;
    BuffersAreApart(iter, otherBuf);
    BuffersAreApart(other, otherBuf);
    if base.Some? {
      BuffersAreApart(base.value, otherBuf);
    }
    NotYetMerged(w, WholeOption(b), Whole(i), o, older, idx);
    var baseRead, iterRead, otherRead := ReadThree(base, iter, other, idx, baseBuf, iterBuf, otherBuf, b, i, w);
    if iterRead > otherRead {
      return false;
    }
    ghost var before := otherBuf[..];
    MergeBuffers(baseBuf, baseRead, iterBuf, iterRead, otherBuf, older);
    ok := true;
    MergedBuffer(WholeOption(b), Whole(i), Whole(o), older, idx,
                 baseBuf[..], baseRead, iterBuf[..], iterRead, before, otherBuf[..], otherRead);
    WriteMerged(WholeOption(b), Whole(i), o, older, other, idx, otherBuf[..otherRead], w);
  }

  method WriteMerged(ghost b: Option<Data>, ghost i: Data, ghost o: Blocks, ghost older: bool,
                     other: Accessor, idx: nat, merged: Data, ghost w: Blocks)
    requires Shows(other, w) && o.WellFormed() && Progress(w, b, i, o, older, idx) && idx * MAX_BLOCK_SIZE < o.Length()
    requires |merged| == InBlock(Whole(o), idx) == |w.Readable(idx, 0)|
    requires forall j :: 0 <= j < |merged| ==>
               var p := idx * MAX_BLOCK_SIZE + j;
               merged[j] == if p < |i| then LoopByte(BaseAt(b, p), i[p], Whole(o)[p], older) else Whole(o)[p]
    modifies other.Obj()
    ensures Shows(other, w.Write(idx, 0, MergedChunk(b, i, Whole(o), older, idx)))
  {
    BlockLength(o, idx, 0);
    assert idx < |w.data|;
    ChunkBytes(b, i, Whole(o), older, idx);
    assert merged == MergedChunk(b, i, Whole(o), older, idx);
    hide MergedChunk;
    ProgressStep(w, b, i, o, older, idx, merged);
    BlocksWithinLimit(other, idx);
    hide Accessor.View, Accessor.Valid, Whole, Progress, Blocks.Write;
    var r := other.WriteBlock(idx, 0, merged);
  }

  lemma EmptyFiles(i: Blocks, o: Blocks)
    requires i.WellFormed() && o.WellFormed() && i.Length() <= o.Length() && o.data == []
    ensures VisibleEnd(i) == VisibleEnd(o) == 0 && o.Contents() == []
  {
  }

  /** A file without blocks: its length wraps around, its first block shows nothing, and the attempt to
      write nothing to it ends the loop. */
  method MergeEmpty(base: Option<Accessor>, iter: Accessor, other: Accessor, older: bool,
                    baseBuf: array<byte>, iterBuf: array<byte>, otherBuf: array<byte>,
                    ghost b: Option<Blocks>, ghost i: Blocks, ghost o: Blocks) returns (ok: bool)
    requires Separate(base, iter, other) && (base.Some? <==> b.Some?)
    requires baseBuf != otherBuf && iterBuf != otherBuf && baseBuf != iterBuf
    requires baseBuf.Length == iterBuf.Length == otherBuf.Length == MAX_BLOCK_SIZE
    requires base.Some? ==> Shows(base.value, b.value) && b.value.WellFormed()
    requires Shows(iter, i) && i.WellFormed() && Shows(other, o) && o.WellFormed()
    requires i.Length() <= o.Length() && o.data == [] && !other.Small?
    modifies if base.Some? then {base.value.Obj()} else {}, iter.Obj(), other.Obj(), baseBuf, iterBuf, otherBuf
    ensures ok <==> !Overlong(i, o)
    ensures ok ==> other.Valid() && other.View() == MergedView(b, i, o, older, other.Small?)
  {
    assert 0 < other.Limit();
    hide Accessor.View, Accessor.Valid, Whole, Blocks.Readable, MergedContents, Overlong, VisibleEnd, Blocks.Contents,
      Blocks.WellFormed, LoopByte;
    EmptyFiles(i, o);
    NothingMerged(b, i, o, older);
    assert !other.Small? ==> MergedView(b, i, o, older, other.Small?) == Blocks([[]], 0);
    hide MergedView;
    BuffersAreApart(other, otherBuf);
    var baseRead, iterRead, otherRead := ReadThree(base, iter, other, 0, baseBuf, iterBuf, otherBuf, b, i, o);
    if iterRead > otherRead {
      return false;
    }
    MergeBuffers(baseBuf, baseRead, iterBuf, iterRead, otherBuf, older);
    var r := other.WriteBlock(0, 0, otherBuf[..otherRead]);
    ok := true;
  }

  /** The block loop of mergeFile: the iterator's changes are written into `other`.  Whatever is stored
      behind the ends of the files, it panics exactly if the smaller one is overlong, and otherwise
      leaves the merge of all that whole blocks show. */
  method MergeInto(base: Option<Accessor>, iter: Accessor, other: Accessor, older: bool,
                   ghost b: Option<Blocks>, ghost i: Blocks, ghost o: Blocks) returns (ok: bool)
    requires Separate(base, iter, other) && (base.Some? <==> b.Some?)
    requires base.Some? ==> Shows(base.value, b.value) && b.value.WellFormed()
    requires Shows(iter, i) && i.WellFormed() && Shows(other, o) && o.WellFormed() && i.Length() <= o.Length()
    modifies if base.Some? then {base.value.Obj()} else {}, iter.Obj(), other.Obj()
    ensures ok <==> !Overlong(i, o)
    ensures ok ==> other.Valid() && other.View() == MergedView(b, i, o, older, other.Small?)
  {
    hide Accessor.View, Accessor.Valid, Whole, MergedContents, MergedView, Overlong, VisibleEnd, Blocks.Contents,
      MergedSpan;
    var length := other.FileLength();
    var span := length % UINT32_RANGE;
    if span == 0 {
      NothingMerged(b, i, o, older);
      NothingVisited(b, i, o, older);
      return true;
    }
    ok := MergeVisited(base, iter, other, older, span, b, i, o);
  }

  /** mergeFile where some block is visited. */
  method MergeVisited(base: Option<Accessor>, iter: Accessor, other: Accessor, older: bool, span: nat,
                      ghost b: Option<Blocks>, ghost i: Blocks, ghost o: Blocks) returns (ok: bool)
    requires Separate(base, iter, other) && (base.Some? <==> b.Some?)
    requires base.Some? ==> Shows(base.value, b.value) && b.value.WellFormed()
    requires Shows(iter, i) && i.WellFormed() && Shows(other, o) && o.WellFormed() && i.Length() <= o.Length()
    requires span > 0 && (other.Small? || o.data != [] ==> span == o.Length() % UINT32_RANGE)
    modifies if base.Some? then {base.value.Obj()} else {}, iter.Obj(), other.Obj()
    ensures ok <==> !Overlong(i, o)
    ensures ok ==> other.Valid() && other.View() == MergedView(b, i, o, older, other.Small?)
  {
    hide Accessor.View, Accessor.Valid, Whole, MergedContents, MergedView, Overlong, VisibleEnd, Blocks.Contents,
      MergedSpan;
    var baseBuf := new byte[MAX_BLOCK_SIZE];
    var iterBuf := new byte[MAX_BLOCK_SIZE];
    var otherBuf := new byte[MAX_BLOCK_SIZE];
    if !other.Small? && |other.m.keys| == 0 {
      ok := MergeEmpty(base, iter, other, older, baseBuf, iterBuf, otherBuf, b, i, o);
    } else {
      SpanOf(o.Length());
      ok := MergeBlocks(base, iter, other, older, baseBuf, iterBuf, otherBuf, (span - 1) / MAX_BLOCK_SIZE, b, i, o);
    }
  }

  lemma SpanOf(length: nat)
    requires length % UINT32_RANGE > 0
    ensures MergedSpan(length) == ((length % UINT32_RANGE - 1) / MAX_BLOCK_SIZE + 1) * MAX_BLOCK_SIZE
  {
  }

  /** operateOnBlocks over the blocks up to `end`. */
  method MergeBlocks(base: Option<Accessor>, iter: Accessor, other: Accessor, older: bool,
                     baseBuf: array<byte>, iterBuf: array<byte>, otherBuf: array<byte>, end: nat,
                     ghost b: Option<Blocks>, ghost i: Blocks, ghost o: Blocks) returns (ok: bool)
    requires Separate(base, iter, other) && (base.Some? <==> b.Some?)
    requires baseBuf != otherBuf && iterBuf != otherBuf && baseBuf != iterBuf
    requires baseBuf.Length == iterBuf.Length == otherBuf.Length == MAX_BLOCK_SIZE
    requires base.Some? ==> Shows(base.value, b.value) && b.value.WellFormed()
    requires Shows(iter, i) && i.WellFormed() && Shows(other, o) && o.WellFormed()
    requires i.Length() <= o.Length() && o.data != [] && MergedSpan(o.Length()) == (end + 1) * MAX_BLOCK_SIZE
    modifies if base.Some? then {base.value.Obj()} else {}, iter.Obj(), other.Obj(), baseBuf, iterBuf, otherBuf
    ensures ok <==> !Overlong(i, o)
    ensures ok ==> other.Valid() && other.View() == MergedView(b, i, o, older, other.Small?)
  {
    hide Accessor.View, Accessor.Valid, Progress, Whole, Overlong, InBlock, Merging, Blocks.Length, MergedSpan,
      MergedView, Blocks.Write, MergedChunk, WholeOption, Separate, Blocks.WellFormed;
    ghost var small, w := other.Small?, o;
    MergingStart(b, i, o, older, small, end);
    var idx: nat := 0;
    while idx <= end
      invariant idx <= end + 1
      invariant base.Some? ==> Shows(base.value, b.value)
      invariant Shows(iter, i) && Shows(other, w) && Merging(b, i, o, older, small, end, w, idx)
    {
      MergingNext(b, i, o, older, small, end, w, idx);
      ok := MergeOneBlock(base, iter, other, idx, older, baseBuf, iterBuf, otherBuf, b, i, o, w);
      if !ok {
        MergingRefused(i, o, end, idx);
        return;
      }
      MergingStep(b, i, o, older, small, end, w, idx);
      w := w.Write(idx, 0, MergedChunk(WholeOption(b), Whole(i), Whole(o), older, idx));
      idx := idx + 1;
    }
    MergingDone(b, i, o, older, small, end, w);
    ok := true;
  }

  /** mergeFile on two branches: chooseAccessors takes the longer file, remote's on a tie, which ends up
      with the merge; of clean files, the three-way merge of their contents. */
  method MergeFiles(base: Option<Accessor>, local: Accessor, remote: Accessor,
                    localSize: nat, remoteSize: nat, localTime: Time, remoteTime: Time,
                    ghost b: Option<Blocks>, ghost l: Blocks, ghost r: Blocks) returns (other: Accessor, ok: bool)
    requires Separate(base, local, remote) && Separate(base, remote, local) && (base.Some? <==> b.Some?)
    requires base.Some? ==> Shows(base.value, b.value) && b.value.WellFormed()
    requires Shows(local, l) && l.WellFormed() && Shows(remote, r) && r.WellFormed()
    requires localSize == l.Length() && remoteSize == r.Length()
    modifies if base.Some? then {base.value.Obj()} else {}, local.Obj(), remote.Obj()
    ensures other == if l.Length() > r.Length() then local else remote
    ensures ok <==> !(if l.Length() > r.Length() then Overlong(r, l) else Overlong(l, r))
    ensures ok && l.Length() > r.Length() ==>
              other.Valid() && other.View() == MergedView(b, r, l, remoteTime > localTime, other.Small?)
    ensures ok && l.Length() <= r.Length() ==>
              other.Valid() && other.View() == MergedView(b, l, r, localTime > remoteTime, other.Small?)
    ensures AllClean(b, l, r) ==> ok
    ensures AllClean(b, l, r) ==> other.View().Contents() == MergeLocalRemote(
              if b.Some? then Some(b.value.Contents()) else None, l.Contents(), r.Contents(), localTime, remoteTime)
  {
    if AllClean(b, l, r) {
      CleanMerge(b, r, l, remoteTime > localTime);
      CleanMerge(b, l, r, localTime > remoteTime);
    }
    if localSize > remoteSize {
      MergedViewContents(b, r, l, remoteTime > localTime, local.Small?);
    } else {
      MergedViewContents(b, l, r, localTime > remoteTime, remote.Small?);
    }
    hide Accessor.View, Accessor.Valid, MergedContents, MergedView, Overlong, MergedBytes, Blocks.Clean;
    if localSize > remoteSize {
      ok := MergeInto(base, remote, local, remoteTime > localTime, b, r, l);
      other := local;
    } else {
      ok := MergeInto(base, local, remote, localTime > remoteTime, b, l, r);
      other := remote;
    }
  }

}
