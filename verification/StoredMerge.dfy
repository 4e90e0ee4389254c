/** What mergeFile makes of the stored blocks of three files (daemon/merge.go:879-986): as values. */
module StoredMerge {
  import opened Basics
  import opened ByteMerge
  import opened FileContent
  import opened FileRanges

  predicate AllClean(b: Option<Blocks>, l: Blocks, r: Blocks) {
    (b.Some? ==> b.value.Clean()) && l.Clean() && r.Clean()
  }

  /** The first `done` bytes merged, the rest still as in `other`. */
  function MergedTo(base: Option<Data>, iter: Data, other: Data, older: bool, done: nat): (r: Data)
    ensures |r| == |other|
  {
    seq(|other|, i requires 0 <= i < |other| =>
      if i < |iter| && i < done then LoopByte(BaseAt(base, i), iter[i], other[i], older) else other[i])
  }

  lemma MergedToSpan(base: Option<Data>, iter: Data, other: Data, older: bool)
    ensures MergedTo(base, iter, other, older, MergedSpan(|other|)) == MergedBytes(base, iter, other, older)
    ensures MergedTo(base, iter, other, older, 0) == other
  {
  }

  // ---------------------------------------------------------------------------------------------
  // What the block loop works on: files as readBlock shows them from the start of their blocks

  /** What reads of whole blocks show of a file, behind its end too. */
  function Whole(f: Blocks): (c: Data)
    requires f.WellFormed()
    ensures |c| == VisibleEnd(f)
  {
    ReadableIsExposed(f, 0);
    Exposed(f).Contents()
  }

  function WholeOption(f: Option<Blocks>): Option<Data>
    requires f.Some? ==> f.value.WellFormed()
  {
    if f.Some? then Some(Whole(f.value)) else None
  }

  lemma CleanIsWhole(f: Blocks)
    requires f.WellFormed() && f.Clean()
    ensures Whole(f) == f.Contents() && VisibleEnd(f) == f.Length()
  {
    CleanIffNothingStale(f);
    assert Exposed(f) == f;
  }

  lemma WholePrefix(f: Blocks)
    requires f.WellFormed()
    ensures f.Length() <= VisibleEnd(f) && f.Contents() == Whole(f)[..f.Length()]
  {
    forall p | 0 <= p < f.Length() ensures f.Contents()[p] == Whole(f)[p] {
      RawIsContent(f, p);
      ExposedByte(f, p);
    }
  }

  /** How many bytes of c lie in a block. */
  function InBlock(c: Data, idx: nat): nat {
    Max(0, Min(|c|, (idx + 1) * MAX_BLOCK_SIZE) - idx * MAX_BLOCK_SIZE)
  }

  /** The assertion that the smaller file has no more data fails: more is stored of it than of the
      longer file, and the block where that happens is visited. */
  predicate Overlong(iter: Blocks, other: Blocks) {
    VisibleEnd(iter) > VisibleEnd(other) && other.Length() <= MergedSpan(other.Length())
  }

  /** The content that mergeFile leaves in `other`: reaching the last block it takes in all that is
      stored there. */
  function MergedContents(base: Option<Blocks>, iter: Blocks, other: Blocks, older: bool): Data
    requires (base.Some? ==> base.value.WellFormed()) && iter.WellFormed() && other.WellFormed()
  {
    var span := MergedSpan(other.Length());
    var merged := MergedTo(WholeOption(base), Whole(iter), Whole(other), older, span);
    WholePrefix(other);
    merged[..if other.Length() <= span then VisibleEnd(other) else other.Length()]
  }

  /** Of clean files it is the three-way merge of their contents. */
  lemma CleanMerge(base: Option<Blocks>, iter: Blocks, other: Blocks, older: bool)
    requires (base.Some? ==> base.value.WellFormed()) && iter.WellFormed() && other.WellFormed()
    requires AllClean(base, iter, other)
    ensures MergedContents(base, iter, other, older)
         == MergedBytes(if base.Some? then Some(base.value.Contents()) else None, iter.Contents(), other.Contents(),
                        older)
    ensures iter.Length() <= other.Length() ==> !Overlong(iter, other)
  {
    if base.Some? {
      CleanIsWhole(base.value);
    }
    CleanIsWhole(iter);
    CleanIsWhole(other);
    MergedToSpan(WholeOption(base), Whole(iter), Whole(other), older);
  }

  /** The last block that is visited lies within the file. */
  lemma VisitedWithin(length: nat, end: nat)
    requires MergedSpan(length) == (end + 1) * MAX_BLOCK_SIZE
    ensures end * MAX_BLOCK_SIZE < length
  {
  }

  /** The assertion holds in all blocks that are visited if and only if the file is not overlong. */
  lemma OverlongIff(iter: Blocks, other: Blocks, end: nat)
    requires iter.WellFormed() && other.WellFormed() && iter.Length() <= other.Length()
    requires MergedSpan(other.Length()) == (end + 1) * MAX_BLOCK_SIZE
    ensures (forall idx :: 0 <= idx <= end ==> InBlock(Whole(iter), idx) <= InBlock(Whole(other), idx))
       <==> !Overlong(iter, other)
  {
    hide Whole, MergedSpan, Blocks.WellFormed, VisibleEnd;
    EndsTogether(iter, other);
    VisitedWithin(other.Length(), end);
    if VisibleEnd(iter) > VisibleEnd(other) {
      var e := |other.data| - 1;
      LastBlockIs(other);
      hide Blocks.Length, LastStart;
      assert InBlock(Whole(iter), e) > InBlock(Whole(other), e);
      assert other.Length() <= (end + 1) * MAX_BLOCK_SIZE <==> e <= end;
      if e > end {
        forall idx | 0 <= idx <= end ensures InBlock(Whole(iter), idx) <= InBlock(Whole(other), idx) {
          assert (idx + 1) * MAX_BLOCK_SIZE <= e * MAX_BLOCK_SIZE;
        }
      }
    }
  }

  lemma LastBlockIs(f: Blocks)
    requires f.WellFormed() && LastStart(f) < f.Length()
    ensures f.data != [] && LastStart(f) == (|f.data| - 1) * MAX_BLOCK_SIZE
    ensures f.Length() <= |f.data| * MAX_BLOCK_SIZE && f.Length() <= VisibleEnd(f)
  {
  }

  /** If more is stored of the shorter file, both end in the same block. */
  lemma EndsTogether(iter: Blocks, other: Blocks)
    requires iter.WellFormed() && other.WellFormed() && iter.Length() <= other.Length()
    ensures VisibleEnd(iter) > VisibleEnd(other) ==>
      && LastStart(iter) == LastStart(other) < iter.Length() && LastStart(other) < other.Length()
      && VisibleEnd(iter) <= LastStart(other) + MAX_BLOCK_SIZE && VisibleEnd(other) < LastStart(other) + MAX_BLOCK_SIZE
  {
  }

  /** What the merge of one block leaves in the buffer of `other`. */
  lemma MergedBlock(base: Option<Data>, iter: Data, other: Data, older: bool, idx: nat, merged: Data)
    requires var at := idx * MAX_BLOCK_SIZE;
             && at < |other|
             && |merged| == Min(|other|, at + MAX_BLOCK_SIZE) - at
             && forall j :: 0 <= j < |merged| ==>
                  merged[j] == if at + j < |iter|
                               then LoopByte(BaseAt(base, at + j), iter[at + j], other[at + j], older)
                               else other[at + j]
    ensures merged != []
    ensures Overlay(MergedTo(base, iter, other, older, idx * MAX_BLOCK_SIZE), idx * MAX_BLOCK_SIZE + 0, Fit(merged, 0))
         == MergedTo(base, iter, other, older, (idx + 1) * MAX_BLOCK_SIZE)
  {
    var at := idx * MAX_BLOCK_SIZE;
    assert Fit(merged, 0) == merged;
    var a := Overlay(MergedTo(base, iter, other, older, at), at, merged);
    var b := MergedTo(base, iter, other, older, at + MAX_BLOCK_SIZE);
    forall p | 0 <= p < |other| ensures a[p] == b[p] {
      assert a[p] == OverlayByte(MergedTo(base, iter, other, older, at), at, merged, p);
      if at <= p < at + |merged| {
        assert merged[p - at] == b[p];
      }
    }
  }

  /** The view of `other` once its first blocks are merged. */
  ghost predicate Progress(w: Blocks, b: Option<Data>, i: Data, other: Blocks, older: bool, idx: nat)
    requires other.WellFormed()
  {
    && w.WellFormed() && |w.data| == |other.data| && VisibleEnd(w) == VisibleEnd(other)
    && Whole(w) == MergedTo(b, i, Whole(other), older, idx * MAX_BLOCK_SIZE)
    && w.Length() == if idx >= |other.data| then VisibleEnd(other) else other.Length()
  }

  lemma ProgressStart(b: Option<Data>, i: Data, other: Blocks, older: bool)
    requires other.WellFormed() && other.data != []
    ensures Progress(other, b, i, other, older, 0)
  {
    MergedToSpan(b, i, Whole(other), older);
  }

  /** One more block merged and written back. */
  lemma ProgressStep(w: Blocks, b: Option<Data>, i: Data, other: Blocks, older: bool, idx: nat, merged: Data)
    requires other.WellFormed() && Progress(w, b, i, other, older, idx) && idx * MAX_BLOCK_SIZE < other.Length()
    requires |merged| == InBlock(Whole(other), idx) == |w.Readable(idx, 0)|
    requires forall j :: 0 <= j < |merged| ==>
               var p := idx * MAX_BLOCK_SIZE + j;
               merged[j] == if p < |i| then LoopByte(BaseAt(b, p), i[p], Whole(other)[p], older) else Whole(other)[p]
    ensures merged != [] && Progress(w.Write(idx, 0, merged), b, i, other, older, idx + 1)
  {
    BlockLength(other, idx, 0);
    WholePrefix(other);
    WriteBackOverlays(w, idx, merged);
    hide Blocks.Write, Blocks.Readable, Exposed, VisibleEnd, Blocks.Length, MergedTo;
    MergedBlock(b, i, Whole(other), older, idx, merged);
    assert Fit(merged, 0) == merged;
  }

  /** The bytes of `other` from a block on are not merged yet. */
  lemma NotYetMerged(w: Blocks, b: Option<Data>, i: Data, other: Blocks, older: bool, idx: nat)
    requires other.WellFormed() && Progress(w, b, i, other, older, idx)
    ensures InBlock(Whole(w), idx) == InBlock(Whole(other), idx)
    ensures forall p :: idx * MAX_BLOCK_SIZE <= p < |Whole(w)| ==> Whole(w)[p] == Whole(other)[p]
  {
    hide Whole;
  }

  lemma NothingMerged(b: Option<Blocks>, i: Blocks, o: Blocks, older: bool)
    requires (b.Some? ==> b.value.WellFormed()) && i.WellFormed() && o.WellFormed() && i.Length() <= o.Length()
    requires o.Length() % UINT32_RANGE == 0
    ensures !Overlong(i, o) && MergedContents(b, i, o, older) == o.Contents()
  {
    assert MergedSpan(o.Length()) == 0;
    WholePrefix(o);
    EndsTogether(i, o);
    MergedToSpan(WholeOption(b), Whole(i), Whole(o), older);
  }

  lemma AllMerged(w: Blocks, b: Option<Blocks>, i: Blocks, o: Blocks, older: bool, end: nat)
    requires (b.Some? ==> b.value.WellFormed()) && i.WellFormed() && o.WellFormed() && o.data != []
    requires MergedSpan(o.Length()) == (end + 1) * MAX_BLOCK_SIZE
    requires Progress(w, WholeOption(b), Whole(i), o, older, end + 1)
    ensures w.Contents() == MergedContents(b, i, o, older)
  {
    WholePrefix(w);
    hide Whole;
  }

  // ---------------------------------------------------------------------------------------------
  // The blocks that the merge leaves

  /** What is written back to one block. */
  function MergedChunk(b: Option<Data>, i: Data, o: Data, older: bool, idx: nat): Data {
    var at := idx * MAX_BLOCK_SIZE;
    if at >= |o| then [] else MergedTo(b, i, o, older, at + MAX_BLOCK_SIZE)[at..Min(|o|, at + MAX_BLOCK_SIZE)]
  }

  /** The merge of the blocks from idx on, up to but without end. */
  function MergeFrom(b: Option<Data>, i: Data, o: Data, older: bool, w: Blocks, idx: nat, end: nat): Blocks
    decreases end - idx
  {
    if idx >= end then w
    else MergeFrom(b, i, o, older, w.Write(idx, 0, MergedChunk(b, i, o, older, idx)), idx + 1, end)
  }

  /** The blocks that mergeFile leaves in `other`.  A multi-block file without blocks gets an empty one. */
  function MergedView(base: Option<Blocks>, iter: Blocks, other: Blocks, older: bool, small: bool): Blocks
    requires (base.Some? ==> base.value.WellFormed()) && iter.WellFormed() && other.WellFormed()
  {
    if other.data == [] then if small then other else Blocks([[]], 0)
    else MergeFrom(WholeOption(base), Whole(iter), Whole(other), older, other, 0,
                   MergedSpan(other.Length()) / MAX_BLOCK_SIZE)
  }

  lemma ChunkBytes(b: Option<Data>, i: Data, o: Data, older: bool, idx: nat)
    ensures |MergedChunk(b, i, o, older, idx)| == InBlock(o, idx)
    ensures forall j :: 0 <= j < InBlock(o, idx) ==>
              var p := idx * MAX_BLOCK_SIZE + j;
              MergedChunk(b, i, o, older, idx)[j] == if p < |i| then LoopByte(BaseAt(b, p), i[p], o[p], older) else o[p]
  {
  }

  lemma {:induction false} MergeFromProgress(b: Option<Data>, i: Data, other: Blocks, older: bool, w: Blocks,
                                             idx: nat, end: nat)
    requires other.WellFormed() && Progress(w, b, i, other, older, idx) && idx <= end
    requires idx < end ==> (end - 1) * MAX_BLOCK_SIZE < other.Length()
    ensures Progress(MergeFrom(b, i, Whole(other), older, w, idx, end), b, i, other, older, end)
    decreases end - idx
  {
    hide Progress, Blocks.Write, MergedChunk, Whole;
    if idx < end {
      ChunkProgress(b, i, other, older, w, idx);
      MergeFromProgress(b, i, other, older, w.Write(idx, 0, MergedChunk(b, i, Whole(other), older, idx)), idx + 1, end);
    }
  }

  lemma ChunkProgress(b: Option<Data>, i: Data, other: Blocks, older: bool, w: Blocks, idx: nat)
    requires other.WellFormed() && Progress(w, b, i, other, older, idx) && idx * MAX_BLOCK_SIZE < other.Length()
    ensures Progress(w.Write(idx, 0, MergedChunk(b, i, Whole(other), older, idx)), b, i, other, older, idx + 1)
  {
    assert w.WellFormed();
    hide Progress, Blocks.Write, MergedChunk, Whole, Blocks.Readable;
    ChunkBytes(b, i, Whole(other), older, idx);
    NotYetMerged(w, b, i, other, older, idx);
    ReadableSize(w, idx);
    ProgressStep(w, b, i, other, older, idx, MergedChunk(b, i, Whole(other), older, idx));
  }

  lemma ReadableSize(w: Blocks, idx: nat)
    requires w.WellFormed()
    ensures |w.Readable(idx, 0)| == InBlock(Whole(w), idx)
  {
    ReadableIsExposed(w, idx);
  }

  lemma ViewStart(b: Option<Blocks>, i: Blocks, o: Blocks, older: bool, small: bool, end: nat)
    requires (b.Some? ==> b.value.WellFormed()) && i.WellFormed() && o.WellFormed() && o.data != []
    requires MergedSpan(o.Length()) == (end + 1) * MAX_BLOCK_SIZE
    ensures MergedView(b, i, o, older, small)
         == MergeFrom(WholeOption(b), Whole(i), Whole(o), older, o, 0, end + 1)
  {
    hide MergeFrom;
  }

  lemma ViewStep(b: Option<Data>, i: Data, o: Data, older: bool, w: Blocks, idx: nat, end: nat)
    ensures MergeFrom(b, i, o, older, w, idx, end)
         == if idx >= end then w
            else MergeFrom(b, i, o, older, w.Write(idx, 0, MergedChunk(b, i, o, older, idx)), idx + 1, end)
  {
  }

  /** The state of the block loop before block idx: everything before it merged into w, nothing refused. */
  ghost predicate Merging(b: Option<Blocks>, i: Blocks, o: Blocks, older: bool, small: bool, end: nat, w: Blocks,
                          idx: nat)
    requires (b.Some? ==> b.value.WellFormed()) && i.WellFormed() && o.WellFormed()
  {
    && idx <= end + 1 && Progress(w, WholeOption(b), Whole(i), o, older, idx)
    && MergeFrom(WholeOption(b), Whole(i), Whole(o), older, w, idx, end + 1) == MergedView(b, i, o, older, small)
    && forall j :: 0 <= j < idx ==> InBlock(Whole(i), j) <= InBlock(Whole(o), j)
  }

  lemma MergingStart(b: Option<Blocks>, i: Blocks, o: Blocks, older: bool, small: bool, end: nat)
    requires (b.Some? ==> b.value.WellFormed()) && i.WellFormed() && o.WellFormed() && o.data != []
    requires MergedSpan(o.Length()) == (end + 1) * MAX_BLOCK_SIZE
    ensures Merging(b, i, o, older, small, end, o, 0)
  {
    hide Progress, Whole, MergedView, InBlock, MergeFrom;
    ViewStart(b, i, o, older, small, end);
    ProgressStart(WholeOption(b), Whole(i), o, older);
  }

  /** What the body of the loop may rely on. */
  lemma MergingNext(b: Option<Blocks>, i: Blocks, o: Blocks, older: bool, small: bool, end: nat, w: Blocks, idx: nat)
    requires (b.Some? ==> b.value.WellFormed()) && i.WellFormed() && o.WellFormed()
    requires MergedSpan(o.Length()) == (end + 1) * MAX_BLOCK_SIZE
    requires Merging(b, i, o, older, small, end, w, idx) && idx <= end
    ensures Progress(w, WholeOption(b), Whole(i), o, older, idx) && idx * MAX_BLOCK_SIZE < o.Length()
  {
    hide Progress, Whole, MergedView, InBlock, MergeFrom;
    VisitedWithin(o.Length(), end);
  }

  lemma MergingStep(b: Option<Blocks>, i: Blocks, o: Blocks, older: bool, small: bool, end: nat, w: Blocks, idx: nat)
    requires (b.Some? ==> b.value.WellFormed()) && i.WellFormed() && o.WellFormed()
    requires MergedSpan(o.Length()) == (end + 1) * MAX_BLOCK_SIZE
    requires Merging(b, i, o, older, small, end, w, idx) && idx <= end
    requires InBlock(Whole(i), idx) <= InBlock(Whole(o), idx)
    ensures Merging(b, i, o, older, small, end,
                    w.Write(idx, 0, MergedChunk(WholeOption(b), Whole(i), Whole(o), older, idx)), idx + 1)
  {
    hide Progress, Whole, MergedView, InBlock, MergeFrom, Blocks.Write, MergedChunk, WholeOption;
    VisitedWithin(o.Length(), end);
    ViewStep(WholeOption(b), Whole(i), Whole(o), older, w, idx, end + 1);
    ChunkProgress(WholeOption(b), Whole(i), o, older, w, idx);
  }

  lemma MergingRefused(i: Blocks, o: Blocks, end: nat, idx: nat)
    requires i.WellFormed() && o.WellFormed() && i.Length() <= o.Length()
    requires MergedSpan(o.Length()) == (end + 1) * MAX_BLOCK_SIZE && idx <= end
    requires InBlock(Whole(i), idx) > InBlock(Whole(o), idx)
    ensures Overlong(i, o)
  {
    hide Whole, InBlock, Overlong, MergedSpan;
    OverlongIff(i, o, end);
  }

  lemma MergingDone(b: Option<Blocks>, i: Blocks, o: Blocks, older: bool, small: bool, end: nat, w: Blocks)
    requires (b.Some? ==> b.value.WellFormed()) && i.WellFormed() && o.WellFormed() && i.Length() <= o.Length()
    requires MergedSpan(o.Length()) == (end + 1) * MAX_BLOCK_SIZE
    requires Merging(b, i, o, older, small, end, w, end + 1)
    ensures w == MergedView(b, i, o, older, small) && !Overlong(i, o)
  {
    hide Progress, Whole, MergedView, InBlock, MergeFrom, Overlong, MergedSpan, WholeOption;
    ViewStep(WholeOption(b), Whole(i), Whole(o), older, w, end + 1, end + 1);
    OverlongIff(i, o, end);
  }

  lemma NothingVisited(b: Option<Blocks>, i: Blocks, o: Blocks, older: bool)
    requires (b.Some? ==> b.value.WellFormed()) && i.WellFormed() && o.WellFormed() && o.Length() % UINT32_RANGE == 0
    ensures MergedView(b, i, o, older, true) == o && (o.data != [] ==> MergedView(b, i, o, older, false) == o)
  {
    assert MergedSpan(o.Length()) == 0;
  }

  /** They hold the merged contents. */
  lemma MergedViewContents(base: Option<Blocks>, iter: Blocks, other: Blocks, older: bool, small: bool)
    requires (base.Some? ==> base.value.WellFormed()) && iter.WellFormed() && other.WellFormed()
    requires iter.Length() <= other.Length()
    ensures MergedView(base, iter, other, older, small).WellFormed()
    ensures MergedView(base, iter, other, older, small).Contents() == MergedContents(base, iter, other, older)
  {
    var span := MergedSpan(other.Length());
    if other.Length() % UINT32_RANGE == 0 {
      NothingMerged(base, iter, other, older);
    } else {
      var end := (other.Length() % UINT32_RANGE - 1) / MAX_BLOCK_SIZE;
      assert span == (end + 1) * MAX_BLOCK_SIZE && span / MAX_BLOCK_SIZE == end + 1;
      ProgressStart(WholeOption(base), Whole(iter), other, older);
      MergeFromProgress(WholeOption(base), Whole(iter), other, older, other, 0, end + 1);
      AllMerged(MergedView(base, iter, other, older, small), base, iter, other, older, end);
    }
  }

  /** A file of three bytes cut to one, its block not held, against one of two bytes: the shorter file
      shows more, and the assertion fails. */
  lemma TruncatedFileIsOverlong()
    ensures var iter, other := Blocks([[1, 2, 3]], 3).Truncate(1, false), Blocks([[4, 5]], 2);
      && iter.WellFormed() && other.WellFormed() && other.Clean() && iter.Length() == 1 < other.Length() == 2
      && Overlong(iter, other)
  {
    assert Blocks([[1, 2, 3]], 3).Truncate(1, false) == Blocks([[1, 2, 3]], 1);
    assert MergedSpan(2) == MAX_BLOCK_SIZE;
  }
}
