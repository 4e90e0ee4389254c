/** Reads and writes across the blocks of a file, on any file that truncate may leave behind: its last
    block may hold bytes past the end of the file (daemon/file.go:391-517, daemon/multiblockfile.go). */
module FileRanges {
  import opened Basics
  import opened ByteMerge
  import opened FileContent

  /** The byte stored at an offset, within the file or behind its end. */
  function RawAt(f: Blocks, p: nat): byte {
    var i, o := p / MAX_BLOCK_SIZE, p % MAX_BLOCK_SIZE;
    if i < |f.data| && o < |f.data[i]| then f.data[i][o] else 0
  }

  /** Where the last block begins, and where its data ends. */
  function LastStart(f: Blocks): nat {
    if f.data == [] then 0 else MAX_BLOCK_SIZE * (|f.data| - 1)
  }

  function StoredEnd(f: Blocks): nat {
    if f.data == [] then 0 else LastStart(f) + |f.data[|f.data| - 1]|
  }

  /** How far a read that starts within the file can get. */
  function VisibleEnd(f: Blocks): nat {
    if f.last == 0 then f.Length() else Max(f.Length(), StoredEnd(f))
  }

  /** The file that reads from the start of its blocks show. */
  function Exposed(f: Blocks): Blocks {
    if f.data == [] || f.last == 0 then f else f.(last := Max(f.last, |f.data[|f.data| - 1]|))
  }

  function Slice(f: Blocks, at: nat, end: nat): (r: Data)
    ensures |r| == Max(0, end - at)
  {
    seq<byte>(Max(0, end - at), i requires 0 <= i < Max(0, end - at) => RawAt(f, at + i))
  }

  lemma RawIsContent(f: Blocks, p: nat)
    requires f.WellFormed() && p < f.Length()
    ensures f.Contents()[p] == RawAt(f, p)
  {
    BlockBounds(p, |f.data|, f.last);
  }

  lemma SliceIsContent(f: Blocks, at: nat, end: nat)
    requires f.WellFormed() && at <= end <= f.Length()
    ensures Slice(f, at, end) == f.Contents()[at..end]
  {
    forall i | 0 <= i < end - at ensures Slice(f, at, end)[i] == f.Contents()[at..end][i] {
      RawIsContent(f, at + i);
    }
  }

  lemma CleanIffNothingStale(f: Blocks)
    ensures f.Clean() <==> StoredEnd(f) <= f.Length()
  {
  }

  // ---------------------------------------------------------------------------------------------
  // Reading

  /** What is read from block idx on, block by block up to `end`, into a buffer with some room. */
  function ReadFrom(f: Blocks, idx: nat, o: nat, room: nat, end: nat): (r: Data)
    ensures |r| <= room
    decreases end + 1 - idx
  {
    if idx > end then [] else
      var readable := f.Readable(idx, o);
      var piece := readable[..Min(room, |readable|)];
      piece + ReadFrom(f, idx + 1, 0, room - |piece|, end)
  }

  /** operateOnBlocks with readBlock. */
  function ReadRange(f: Blocks, offset: nat, size: nat): (r: Data)
    ensures |r| <= size
  {
    if size == 0 then []
    else ReadFrom(f, offset / MAX_BLOCK_SIZE, offset % MAX_BLOCK_SIZE, size, (offset + size - 1) / MAX_BLOCK_SIZE)
  }

  /** One block shows everything stored from the offset on, if the offset is within the file. */
  lemma ReadableSlice(f: Blocks, idx: nat, o: nat)
    requires f.WellFormed() && o < MAX_BLOCK_SIZE
    ensures var at := idx * MAX_BLOCK_SIZE + o;
      f.Readable(idx, o)
      == if at < f.Length() then Slice(f, at, Min(VisibleEnd(f), (idx + 1) * MAX_BLOCK_SIZE)) else []
  {
    BlockLength(f, idx, o);
    var at := idx * MAX_BLOCK_SIZE + o;
    if at < f.Length() {
      ReadableBlock(f, idx, o);
      var d, expected := f.data[idx], Expected(f, idx);
      var shown := Max(expected, |d|);
      assert Min(VisibleEnd(f), (idx + 1) * MAX_BLOCK_SIZE) == idx * MAX_BLOCK_SIZE + shown;
      var s := Slice(f, at, idx * MAX_BLOCK_SIZE + shown);
      forall i | 0 <= i < shown - o ensures s[i] == Resize(d, shown)[o..][i] {
        DivMod(idx, o + i);
        assert s[i] == RawAt(f, idx * MAX_BLOCK_SIZE + (o + i));
      }
    } else {
      NothingReadable(f, idx, o);
    }
  }

  lemma DivMod(idx: nat, o: nat)
    requires o < MAX_BLOCK_SIZE
    ensures (idx * MAX_BLOCK_SIZE + o) / MAX_BLOCK_SIZE == idx && (idx * MAX_BLOCK_SIZE + o) % MAX_BLOCK_SIZE == o
  {
  }

  lemma {:induction false} ReadPast(f: Blocks, idx: nat, o: nat, room: nat, end: nat)
    requires f.WellFormed() && o < MAX_BLOCK_SIZE && idx * MAX_BLOCK_SIZE + o >= f.Length()
    ensures ReadFrom(f, idx, o, room, end) == []
    decreases end + 1 - idx
  {
    if idx <= end {
      ReadableSlice(f, idx, o);
      ReadPast(f, idx + 1, 0, room, end);
    }
  }

  lemma LastBlockBounds(f: Blocks, idx: nat, o: nat)
    requires f.WellFormed() && o < MAX_BLOCK_SIZE && idx * MAX_BLOCK_SIZE + o < f.Length()
    ensures f.Length() <= VisibleEnd(f)
    ensures (idx + 1) * MAX_BLOCK_SIZE < f.Length() || VisibleEnd(f) <= (idx + 1) * MAX_BLOCK_SIZE
  {
    BlockLength(f, idx, o);
  }

  /** How much one block shows from an offset on. */
  function Shown(f: Blocks, idx: nat, o: nat): int {
    Min(VisibleEnd(f), (idx + 1) * MAX_BLOCK_SIZE) - (idx * MAX_BLOCK_SIZE + o)
  }

  lemma ReadOne(f: Blocks, idx: nat, o: nat, room: nat, end: nat)
    requires f.WellFormed() && o < MAX_BLOCK_SIZE && idx * MAX_BLOCK_SIZE + o < f.Length() && idx <= end
    ensures var at, n := idx * MAX_BLOCK_SIZE + o, Min(room, Shown(f, idx, o));
      && 0 <= n <= room
      && ReadFrom(f, idx, o, room, end) == Slice(f, at, at + n) + ReadFrom(f, idx + 1, 0, room - n, end)
  {
    var at, n := idx * MAX_BLOCK_SIZE + o, Min(room, Shown(f, idx, o));
    ReadableSlice(f, idx, o);
    LastBlockBounds(f, idx, o);
    SliceJoin(f, at, at + n, at + Shown(f, idx, o));
    hide Slice, Blocks.Readable, VisibleEnd, Blocks.Length;
  }

  /** A read shows everything stored from an offset within the file on. */
  lemma {:induction false} ReadFromSlice(f: Blocks, idx: nat, o: nat, room: nat, end: nat)
    requires f.WellFormed() && o < MAX_BLOCK_SIZE && idx * MAX_BLOCK_SIZE + o < f.Length()
    requires room > 0 && end * MAX_BLOCK_SIZE < idx * MAX_BLOCK_SIZE + o + room <= (end + 1) * MAX_BLOCK_SIZE
    ensures var at := idx * MAX_BLOCK_SIZE + o;
      ReadFrom(f, idx, o, room, end) == Slice(f, at, Min(VisibleEnd(f), at + room))
    decreases end + 1 - idx
  {
    hide Blocks.Readable, VisibleEnd, Slice, Blocks.Length, Blocks.WellFormed, ReadFrom;
    var at, next := idx * MAX_BLOCK_SIZE + o, (idx + 1) * MAX_BLOCK_SIZE;
    assert idx <= end;
    ReadOne(f, idx, o, room, end);
    LastBlockBounds(f, idx, o);
    var n := Min(room, Shown(f, idx, o));
    if idx == end {
      ReadNoMore(f, idx + 1, room - n, end);
    } else if next < f.Length() {
      assert at + n == next;
      ReadFromSlice(f, idx + 1, 0, room - n, end);
      SliceJoin(f, at, next, Min(VisibleEnd(f), at + room));
    } else {
      ReadPast(f, idx + 1, 0, room - n, end);
    }
  }

  lemma ReadNoMore(f: Blocks, idx: nat, room: nat, end: nat)
    requires idx > end
    ensures ReadFrom(f, idx, 0, room, end) == []
  {
  }

  lemma SliceJoin(f: Blocks, a: nat, b: nat, c: nat)
    requires a <= b <= c
    ensures Slice(f, a, c) == Slice(f, a, b) + Slice(f, b, c)
    ensures Slice(f, a, c)[..b - a] == Slice(f, a, b)
  {
  }

  lemma ReadRangeSlice(f: Blocks, offset: nat, size: nat)
    requires f.WellFormed()
    ensures ReadRange(f, offset, size)
         == if offset < f.Length() then Slice(f, offset, Min(VisibleEnd(f), offset + size)) else []
  {
    hide Slice, VisibleEnd, ReadFrom, Blocks.Length, Blocks.WellFormed;
    if size > 0 {
      var idx, o, end := offset / MAX_BLOCK_SIZE, offset % MAX_BLOCK_SIZE, (offset + size - 1) / MAX_BLOCK_SIZE;
      assert offset == idx * MAX_BLOCK_SIZE + o;
      if offset < f.Length() {
        ReadFromSlice(f, idx, o, size, end);
      } else {
        ReadPast(f, idx, o, size, end);
      }
    }
  }

  /** The content in a range, as far as the file goes. */
  ghost function ContentRange(f: Blocks, offset: nat, size: nat): Data
    requires f.WellFormed()
  {
    if offset < f.Length() then f.Contents()[offset..Min(offset + size, f.Length())] else []
  }

  /** The range ends within the file, starts behind it, or nothing is stored behind the file's end. */
  predicate ReadsExactly(f: Blocks, offset: nat, size: nat) {
    offset >= f.Length() || offset + size <= f.Length() || VisibleEnd(f) == f.Length()
  }

  /** A read returns exactly the content if and only if it does not run across the end of a file with
      something stored behind. */
  lemma ReadIsContentIff(f: Blocks, offset: nat, size: nat)
    requires f.WellFormed()
    ensures ReadRange(f, offset, size) == ContentRange(f, offset, size) <==> ReadsExactly(f, offset, size)
  {
    ReadRangeSlice(f, offset, size);
    if offset < f.Length() {
      var end := Min(offset + size, f.Length());
      SliceIsContent(f, offset, end);
      if ReadsExactly(f, offset, size) {
        assert Min(VisibleEnd(f), offset + size) == end;
      } else {
        assert |ReadRange(f, offset, size)| > |ContentRange(f, offset, size)|;
      }
    }
  }

  /** All reads return exactly the content if and only if the file is clean, or ends with an empty block. */
  lemma ReadsAreContentIff(f: Blocks)
    requires f.WellFormed()
    ensures (forall offset, size :: ReadRange(f, offset, size) == ContentRange(f, offset, size))
       <==> f.Clean() || f.last == 0
  {
    CleanIffNothingStale(f);
    forall offset, size
      ensures ReadRange(f, offset, size) == ContentRange(f, offset, size) <==> ReadsExactly(f, offset, size)
    {
      ReadIsContentIff(f, offset, size);
    }
    if !f.Clean() && f.last != 0 {
      assert !ReadsExactly(f, f.Length() - 1, 2);
    }
  }

  /** A file of three bytes cut to one, its block not held: reading two bytes from the start returns a
      byte past the end. */
  lemma ReadReturnsStaleByte()
    ensures var f := Blocks([[1, 2, 3]], 3).Truncate(1, false);
      f.WellFormed() && f.Contents() == [1] && ReadRange(f, 0, 2) == [1, 2]
  {
    var f := Blocks([[1, 2, 3]], 3).Truncate(1, false);
    assert f == Blocks([[1, 2, 3]], 1);
    ReadRangeSlice(f, 0, 2);
    assert RawAt(f, 0) == 1 && RawAt(f, 1) == 2;
  }

  // ---------------------------------------------------------------------------------------------
  // Writing

  /** What is left after writing block by block from block idx on. */
  function WriteFrom(f: Blocks, idx: nat, o: nat, b: Data): Blocks
    requires o < MAX_BLOCK_SIZE
    decreases |b|
  {
    if b == [] then f
    else WriteFrom(f.Write(idx, o, b), idx + 1, 0, b[|Fit(b, o)|..])
  }

  /** operateOnBlocks with writeBlock. */
  function WriteRange(f: Blocks, offset: nat, b: Data): Blocks {
    WriteFrom(f, offset / MAX_BLOCK_SIZE, offset % MAX_BLOCK_SIZE, b)
  }

  /** The length that a write leaves: reaching the last block it takes in all that is stored there. */
  function LengthAfter(f: Blocks, offset: nat, size: nat): nat {
    if size == 0 || offset + size <= LastStart(f) then f.Length()
    else Max(Max(f.Length(), StoredEnd(f)), offset + size)
  }

  /** The sizes of the blocks after a block write, and of the last one. */
  lemma WriteShape(f: Blocks, idx: nat, o: nat, b: Data)
    requires f.WellFormed() && o < MAX_BLOCK_SIZE && b != []
    ensures var g := f.Write(idx, o, b);
      var n := Max(if idx < |f.data| then |f.data[idx]| else 0, o + |Fit(b, o)|);
      && |g.data| == Max(|f.data|, idx + 1) && |g.data[idx]| == n <= MAX_BLOCK_SIZE
      && (forall i :: 0 <= i < |g.data| && i != idx ==> g.data[i] == if i < |f.data| then f.data[i] else [])
      && g.last == if idx + 1 < |f.data| then f.last else Max(if idx < |f.data| then f.last else 0, n)
  {
    var e := if idx >= |f.data| then f.Expand(idx + 1) else f;
    BufferWriteOverlays(e.data[idx], b, o);
    BufferWriteBound(e.data[idx], b, o);
    hide BufferWrite, Overlay;
  }

  lemma WriteOne(f: Blocks, idx: nat, o: nat, b: Data)
    requires f.WellFormed() && o < MAX_BLOCK_SIZE && b != []
    ensures var g, at := f.Write(idx, o, b), idx * MAX_BLOCK_SIZE + o; var n := |Fit(b, o)|;
      && g.WellFormed() && g.Length() == LengthAfter(f, at, n)
      && (idx + 1 < |f.data| ==> LastStart(g) == LastStart(f) && StoredEnd(g) == StoredEnd(f))
      && (idx + 1 >= |f.data| ==> LastStart(g) == idx * MAX_BLOCK_SIZE && StoredEnd(g) <= g.Length())
  {
    hide Blocks.Write;
    WriteShape(f, idx, o, b);
  }

  /** A block write replaces what it covers of all that is stored, and nothing else. */
  lemma WriteOneRaw(f: Blocks, idx: nat, o: nat, b: Data, p: nat)
    requires f.WellFormed() && o < MAX_BLOCK_SIZE && b != []
    ensures var at, fit := idx * MAX_BLOCK_SIZE + o, Fit(b, o);
      RawAt(f.Write(idx, o, b), p) == if at <= p < at + |fit| then fit[p - at] else RawAt(f, p)
  {
    var e := if idx >= |f.data| then f.Expand(idx + 1) else f;
    assert RawAt(e, p) == RawAt(f, p);
    var i, q := p / MAX_BLOCK_SIZE, p % MAX_BLOCK_SIZE;
    assert p == i * MAX_BLOCK_SIZE + q;
    if i == idx {
      var d, fit := e.data[idx], Fit(b, o);
      BufferWriteOverlays(d, b, o);
      var w := Overlay(d, o, fit);
      assert f.Write(idx, o, b).data[idx] == w;
      assert q < |w| ==> w[q] == OverlayByte(d, o, fit, q);
    }
  }

  /** So for a write over several blocks: the length. */
  lemma {:induction false} WriteFromLength(f: Blocks, idx: nat, o: nat, b: Data)
    requires f.WellFormed() && o < MAX_BLOCK_SIZE
    ensures var g := WriteFrom(f, idx, o, b);
      g.WellFormed() && g.Length() == LengthAfter(f, idx * MAX_BLOCK_SIZE + o, |b|)
    decreases |b|
  {
    if b != [] {
      var n := |Fit(b, o)|;
      var h := f.Write(idx, o, b);
      WriteOne(f, idx, o, b);
      WriteFromLength(h, idx + 1, 0, b[n..]);
      LengthJoins(f, h, idx, o, n, |b|);
    }
  }

  /** And what is stored. */
  lemma {:induction false} WriteFromByte(f: Blocks, idx: nat, o: nat, b: Data, p: nat)
    requires f.WellFormed() && o < MAX_BLOCK_SIZE
    ensures var at := idx * MAX_BLOCK_SIZE + o;
      RawAt(WriteFrom(f, idx, o, b), p) == if at <= p < at + |b| then b[p - at] else RawAt(f, p)
    decreases |b|
  {
    hide RawAt, Blocks.Write, Blocks.WellFormed, Blocks.Length;
    if b != [] {
      WriteOne(f, idx, o, b);
      WriteOneRaw(f, idx, o, b, p);
      WriteFromByte(f.Write(idx, o, b), idx + 1, 0, b[|Fit(b, o)|..], p);
    }
  }

  lemma WriteFromRaw(f: Blocks, idx: nat, o: nat, b: Data)
    requires f.WellFormed() && o < MAX_BLOCK_SIZE
    ensures var g, at := WriteFrom(f, idx, o, b), idx * MAX_BLOCK_SIZE + o;
      && g.WellFormed() && g.Length() == LengthAfter(f, at, |b|)
      && forall p: nat :: RawAt(g, p) == if at <= p < at + |b| then b[p - at] else RawAt(f, p)
  {
    hide RawAt, WriteFrom;
    WriteFromLength(f, idx, o, b);
    var at := idx * MAX_BLOCK_SIZE + o;
    forall p: nat
      ensures RawAt(WriteFrom(f, idx, o, b), p) == if at <= p < at + |b| then b[p - at] else RawAt(f, p)
    {
      WriteFromByte(f, idx, o, b, p);
    }
  }

  lemma LengthJoins(f: Blocks, h: Blocks, idx: nat, o: nat, n: nat, size: nat)
    requires f.WellFormed() && h.WellFormed() && o < MAX_BLOCK_SIZE && 0 < n == Min(size, MAX_BLOCK_SIZE - o)
    requires var at := idx * MAX_BLOCK_SIZE + o;
      && h.Length() == LengthAfter(f, at, n)
      && (idx + 1 < |f.data| ==> LastStart(h) == LastStart(f) && StoredEnd(h) == StoredEnd(f))
      && (idx + 1 >= |f.data| ==> LastStart(h) == idx * MAX_BLOCK_SIZE && StoredEnd(h) <= h.Length())
    ensures LengthAfter(h, (idx + 1) * MAX_BLOCK_SIZE, size - n) == LengthAfter(f, idx * MAX_BLOCK_SIZE + o, size)
  {
  }

  /** The write stays before the last block, or covers all that is stored behind the file's end but for
      zeros before it. */
  ghost predicate WritesExactly(f: Blocks, offset: nat, size: nat) {
    || size == 0 || offset + size <= LastStart(f)
    || (StoredEnd(f) <= Max(f.Length(), offset + size) && forall p :: f.Length() <= p < offset ==> RawAt(f, p) == 0)
  }

  /** The zero-padded content overlaid with a buffer, in terms of what is stored. */
  lemma OverlaidByte(f: Blocks, offset: nat, b: Data, p: nat)
    requires f.WellFormed() && p < Max(f.Length(), offset + |b|)
    ensures Overlay(f.Contents(), offset, b)[p]
         == if offset <= p < offset + |b| then b[p - offset] else if p < f.Length() then RawAt(f, p) else 0
  {
    var c := f.Contents();
    if p < f.Length() {
      RawIsContent(f, p);
    }
    hide RawAt, Blocks.Contents, Blocks.WellFormed, Blocks.Length;
    assert Overlay(c, offset, b)[p] == OverlayByte(c, offset, b, p);
  }

  /** The bytes stored by a write and the length it leaves decide whether its content is the overlay. */
  lemma IsOverlayIff(f: Blocks, offset: nat, b: Data, g: Blocks)
    requires f.WellFormed() && g.WellFormed()
    requires forall p: nat :: RawAt(g, p) == if offset <= p < offset + |b| then b[p - offset] else RawAt(f, p)
    ensures g.Contents() == Overlay(f.Contents(), offset, b)
       <==> (g.Length() == Max(f.Length(), offset + |b|)
             && forall p :: f.Length() <= p < offset && p < g.Length() ==> RawAt(f, p) == 0)
  {
    hide RawAt, Overlay, Blocks.Contents, Blocks.WellFormed, Blocks.Length;
    var c, r := g.Contents(), Overlay(f.Contents(), offset, b);
    if g.Length() == |r| {
      forall p | 0 <= p < g.Length()
        ensures c[p] == RawAt(g, p)
        ensures r[p] == if offset <= p < offset + |b| then b[p - offset] else if p < f.Length() then RawAt(f, p) else 0
      {
        RawIsContent(g, p);
        OverlaidByte(f, offset, b, p);
      }
      if c == r {
        forall p | f.Length() <= p < offset && p < g.Length() ensures RawAt(f, p) == 0 {
          assert c[p] == r[p];
        }
      }
    }
  }

  /** Nothing is stored behind the last block. */
  lemma LengthBounds(f: Blocks)
    requires f.WellFormed()
    ensures LastStart(f) <= f.Length()
  {
  }

  /** A write leaves exactly the zero-padded content overlaid with the buffer, if and only if it covers
      what is stored behind the end of the file. */
  lemma WriteIsOverlayIff(f: Blocks, offset: nat, b: Data)
    requires f.WellFormed() && b != []
    ensures WriteRange(f, offset, b).WellFormed()
    ensures WriteRange(f, offset, b).Contents() == Overlay(f.Contents(), offset, b) <==> WritesExactly(f, offset, |b|)
  {
    hide RawAt, Overlay, Blocks.Contents, Blocks.WellFormed, Blocks.Length, WriteFrom, LastStart, StoredEnd;
    var idx, o := offset / MAX_BLOCK_SIZE, offset % MAX_BLOCK_SIZE;
    assert offset == idx * MAX_BLOCK_SIZE + o;
    WriteFromRaw(f, idx, o, b);
    IsOverlayIff(f, offset, b, WriteRange(f, offset, b));
    LengthBounds(f);
  }

  /** After a write that reaches the last block nothing is stored behind the end any more. */
  lemma {:induction false} WriteCleans(f: Blocks, idx: nat, o: nat, b: Data)
    requires f.WellFormed() && o < MAX_BLOCK_SIZE && b != []
    ensures WriteFrom(f, idx, o, b).WellFormed()
    ensures f.Clean() || idx * MAX_BLOCK_SIZE + o + |b| > LastStart(f) ==> WriteFrom(f, idx, o, b).Clean()
    decreases |b|
  {
    var h, n := f.Write(idx, o, b), |Fit(b, o)|;
    WriteOne(f, idx, o, b);
    CleanIffNothingStale(f);
    CleanIffNothingStale(h);
    if b[n..] != [] {
      WriteCleans(h, idx + 1, 0, b[n..]);
    }
  }

  /** A clean file is read and written exactly, wherever. */
  lemma CleanIsExact(f: Blocks, offset: nat, size: nat)
    requires f.WellFormed() && f.Clean()
    ensures ReadsExactly(f, offset, size) && WritesExactly(f, offset, size)
  {
    forall p | f.Length() <= p < offset ensures RawAt(f, p) == 0 {
      assert p == p / MAX_BLOCK_SIZE * MAX_BLOCK_SIZE + p % MAX_BLOCK_SIZE;
    }
  }

  /** A write at the end of a file of three bytes cut to one: the second byte is as written, and the
      third one is back. */
  lemma WriteBringsBackStaleByte()
    ensures var f := Blocks([[1, 2, 3]], 3).Truncate(1, false);
      WriteRange(f, 1, [9]).WellFormed() && WriteRange(f, 1, [9]).Contents() == [1, 9, 3]
  {
    var f := Blocks([[1, 2, 3]], 3).Truncate(1, false);
    assert f == Blocks([[1, 2, 3]], 1);
    WriteFromRaw(f, 0, 1, [9]);
    var g := WriteRange(f, 1, [9]);
    forall p | 0 <= p < 3 ensures g.Contents()[p] == [1, 9, 3][p] {
      RawIsContent(g, p);
      assert RawAt(g, p) == if 1 <= p < 2 then [9][p - 1] else RawAt(f, p);
      assert RawAt(f, p) == f.data[0][p];
    }
  }

  // ---------------------------------------------------------------------------------------------
  // Whole blocks

  lemma ExposedKeeps(f: Blocks)
    requires f.WellFormed()
    ensures Exposed(f).WellFormed() && Exposed(f).Length() == VisibleEnd(f) && Exposed(f).data == f.data
  {
  }

  lemma RawIsData(f: Blocks, g: Blocks, p: nat)
    requires f.data == g.data
    ensures RawAt(f, p) == RawAt(g, p)
  {
  }

  lemma SliceIsData(f: Blocks, g: Blocks, at: nat, end: nat)
    requires f.data == g.data
    ensures Slice(f, at, end) == Slice(g, at, end)
  {
    forall i | 0 <= i < end - at ensures Slice(f, at, end)[i] == Slice(g, at, end)[i] {
      RawIsData(f, g, at + i);
    }
  }

  /** From the start of a block, readBlock shows the exposed file. */
  lemma ReadableIsExposed(f: Blocks, idx: nat)
    requires f.WellFormed()
    ensures Exposed(f).WellFormed() && Exposed(f).Length() == VisibleEnd(f)
    ensures f.Readable(idx, 0) == ContentRange(Exposed(f), idx * MAX_BLOCK_SIZE, MAX_BLOCK_SIZE)
  {
    ExposedKeeps(f);
    var x, at := Exposed(f), idx * MAX_BLOCK_SIZE;
    ReadableSlice(f, idx, 0);
    VisibleWithin(f, idx);
    hide Exposed, VisibleEnd, Blocks.Readable, Blocks.Length, Blocks.Contents, Blocks.WellFormed, Slice, RawAt;
    if at < f.Length() {
      var end := Min(VisibleEnd(f), at + MAX_BLOCK_SIZE);
      SliceIsContent(x, at, end);
      SliceIsData(x, f, at, end);
    }
  }

  /** Blocks that start behind the end show nothing. */
  lemma VisibleWithin(f: Blocks, idx: nat)
    requires f.WellFormed()
    ensures f.Length() <= VisibleEnd(f) && (idx * MAX_BLOCK_SIZE < f.Length() <==> idx * MAX_BLOCK_SIZE < VisibleEnd(f))
  {
  }

  lemma ExposedByte(f: Blocks, p: nat)
    requires f.WellFormed() && p < VisibleEnd(f)
    ensures Exposed(f).WellFormed() && Exposed(f).Length() == VisibleEnd(f)
    ensures Exposed(f).Contents()[p] == RawAt(f, p)
  {
    ExposedKeeps(f);
    RawIsData(f, Exposed(f), p);
    RawIsContent(Exposed(f), p);
  }

  /** Writing back as much as a block shows keeps the length of the exposed file. */
  lemma WriteBackLength(f: Blocks, idx: nat, b: Data)
    requires f.WellFormed() && idx * MAX_BLOCK_SIZE < f.Length() && |b| == |f.Readable(idx, 0)|
    ensures b != [] && Fit(b, 0) == b && idx * MAX_BLOCK_SIZE + |b| <= VisibleEnd(f)
    ensures var g := f.Write(idx, 0, b);
      && g.WellFormed() && |g.data| == |f.data|
      && g.Length() == (if idx + 1 == |f.data| then VisibleEnd(f) else f.Length()) && VisibleEnd(g) == VisibleEnd(f)
  {
    WriteBackFits(f, idx, b);
    WriteOne(f, idx, 0, b);
    WriteKeepsSize(f, idx, b);
    BlockLength(f, idx, 0);
    hide Blocks.Readable, Blocks.Write, Fit;
  }

  lemma WriteKeepsSize(f: Blocks, idx: nat, b: Data)
    requires idx < |f.data|
    ensures var g := f.Write(idx, 0, b); |g.data| == |f.data| && (idx + 1 < |f.data| ==> g.last == f.last)
  {
  }

  lemma WriteBackFits(f: Blocks, idx: nat, b: Data)
    requires f.WellFormed() && idx * MAX_BLOCK_SIZE < f.Length() && |b| == |f.Readable(idx, 0)|
    ensures b != [] && Fit(b, 0) == b && idx < |f.data|
    ensures |b| == Min(VisibleEnd(f), (idx + 1) * MAX_BLOCK_SIZE) - idx * MAX_BLOCK_SIZE
  {
    ReadableSlice(f, idx, 0);
    BlockLength(f, idx, 0);
    LastBlockBounds(f, idx, 0);
  }

  /** And overlays it. */
  lemma WriteBackOverlays(f: Blocks, idx: nat, b: Data)
    requires f.WellFormed() && idx * MAX_BLOCK_SIZE < f.Length() && |b| == |f.Readable(idx, 0)|
    ensures var g := f.Write(idx, 0, b);
      && b != [] && |b| <= MAX_BLOCK_SIZE && g.WellFormed() && |g.data| == |f.data|
      && g.Length() == (if idx + 1 == |f.data| then VisibleEnd(f) else f.Length()) && VisibleEnd(g) == VisibleEnd(f)
      && Exposed(f).WellFormed() && Exposed(g).WellFormed()
      && Exposed(g).Contents() == Overlay(Exposed(f).Contents(), idx * MAX_BLOCK_SIZE, b)
  {
    hide Blocks.Readable, Blocks.Write, VisibleEnd, Exposed, Blocks.Contents, Blocks.Length, Blocks.WellFormed, RawAt,
      Overlay;
    var g, at := f.Write(idx, 0, b), idx * MAX_BLOCK_SIZE;
    WriteBackLength(f, idx, b);
    ExposedKeeps(f);
    ExposedKeeps(g);
    var c, d := Exposed(f).Contents(), Exposed(g).Contents();
    var r := Overlay(c, at, b);
    forall p | 0 <= p < VisibleEnd(f) ensures d[p] == r[p] {
      ExposedByte(f, p);
      ExposedByte(g, p);
      WriteOneRaw(f, idx, 0, b, p);
      OverlayAt(c, at, b, p);
    }
  }

  lemma OverlayAt(c: Data, at: nat, b: Data, p: nat)
    requires p < |c| && at + |b| <= |c|
    ensures Overlay(c, at, b)[p] == if at <= p < at + |b| then b[p - at] else c[p]
  {
    assert Overlay(c, at, b)[p] == OverlayByte(c, at, b, p);
  }
}
