/** The abstract content of a file and of its blocks (daemon/multiblockfile.go, datastore.go). */
module FileContent {
  import opened Basics
  import opened ByteMerge

  type Data = seq<byte>

  function Zeros(n: nat): (z: Data)
    ensures |z| == n && forall i :: 0 <= i < n ==> z[i] == 0
  {
    seq(n, i => 0)
  }

  function Repeat<T>(x: T, n: nat): (r: seq<T>)
    ensures |r| == n && forall i :: 0 <= i < n ==> r[i] == x
  {
    seq(n, i => x)
  }

  function Min(a: int, b: int): int {
    if a < b then a else b
  }

  function Max(a: int, b: int): int {
    if a < b then b else a
  }

  /** Cut or zero-fill to length n (buffer.SetSize). */
  function Resize(c: Data, n: nat): (r: Data)
    ensures |r| == n
    ensures forall i :: 0 <= i < n ==> r[i] == if i < |c| then c[i] else 0
  {
    if n <= |c| then c[..n] else c + Zeros(n - |c|)
  }

  /** What a write of b at an offset makes of content c: holes read as zeros. */
  function Overlay(c: Data, offset: nat, b: Data): (r: Data)
    ensures |r| == Max(|c|, offset + |b|)
  {
    seq(Max(|c|, offset + |b|), i requires 0 <= i => OverlayByte(c, offset, b, i))
  }

  function OverlayByte(c: Data, offset: nat, b: Data, i: nat): byte {
    if offset <= i < offset + |b| then b[i - offset] else if i < |c| then c[i] else 0
  }

  /** buffer.Write: what fits before the end of the block is copied in, after a zero-filled hole. */
  function BufferWrite(d: Data, b: Data, offset: nat): (r: Data)
    requires offset < MAX_BLOCK_SIZE
  {
    var fits := b[..Min(|b|, MAX_BLOCK_SIZE - offset)];
    var padded := if offset > |d| then d + Zeros(offset - |d|) else d;
    if offset + |fits| > |padded| then padded[..offset] + fits
    else padded[..offset] + fits + padded[offset + |fits|..]
  }

  lemma BufferWriteOverlays(d: Data, b: Data, offset: nat)
    requires offset < MAX_BLOCK_SIZE
    ensures BufferWrite(d, b, offset) == Overlay(d, offset, b[..Min(|b|, MAX_BLOCK_SIZE - offset)])
  {
  }

  lemma BufferWriteBound(d: Data, b: Data, offset: nat)
    requires offset < MAX_BLOCK_SIZE && |d| <= MAX_BLOCK_SIZE
    ensures |BufferWrite(d, b, offset)| <= MAX_BLOCK_SIZE
  {
  }

  /** A multi-block file: the data held for each block, and the number of valid bytes of the last
      one.  A block's data may be shorter than the block; the rest reads as zeros. */
  datatype Blocks = Blocks(data: seq<Data>, last: nat)
  {
    predicate WellFormed() {
      && last <= MAX_BLOCK_SIZE
      && (forall i :: 0 <= i < |data| ==> |data[i]| <= MAX_BLOCK_SIZE)
      && (data == [] ==> last == 0)
    }

    /** No stale bytes lie beyond the end of the file. */
    predicate Clean() {
      data != [] ==> |data[|data| - 1]| <= last
    }

    function Length(): nat {
      if data == [] then 0 else MAX_BLOCK_SIZE * (|data| - 1) + last
    }

    function ByteAt(p: nat): byte
      requires p < Length() && WellFormed()
    {
      BlockBounds(p, |data|, last);
      var d, o := data[p / MAX_BLOCK_SIZE], p % MAX_BLOCK_SIZE;
      if o < |d| then d[o] else 0
    }

    function Contents(): (c: Data)
      requires WellFormed()
      ensures |c| == Length()
      ensures forall p :: 0 <= p < |c| ==> c[p] == ByteAt(p)
    {
      seq(Length(), p requires 0 <= p < Length() => ByteAt(p))
    }

    /** expandTo: whole empty blocks are appended and the last one is empty. */
    function Expand(n: nat): Blocks
      requires n >= |data|
    {
      Blocks(data + Repeat([], n - |data|), 0)
    }

    /** writeBlock after any expansion: one block's data is replaced. */
    function WriteIn(idx: nat, offset: nat, b: Data): Blocks
      requires idx < |data| && offset < MAX_BLOCK_SIZE
    {
      var d := BufferWrite(data[idx], b, offset);
      Blocks(data[idx := d], if idx == |data| - 1 then Max(last, |d|) else last)
    }

    /** The bytes that readBlock finds from an offset in a block: none past the expected size of the
        block, and otherwise its data zero-filled to that size. */
    function Readable(idx: nat, offset: nat): Data {
      if idx >= |data| then [] else
        var expected := if idx == |data| - 1 then last else MAX_BLOCK_SIZE;
        if offset >= expected then [] else Resize(data[idx], Max(expected, |data[idx]|))[offset..]
    }

    /** truncate.  When the file shrinks, the data of the new last block is cut only if the block is
        already held for syncing (`held`); otherwise a resized copy is made and dropped. */
    function Truncate(n: nat, held: bool): Blocks {
      if n == 0 then Blocks([], 0) else
        var end := (n - 1) / MAX_BLOCK_SIZE;
        var lastLen := n - end * MAX_BLOCK_SIZE;
        if end + 1 > |data| then Expand(end + 1).(last := lastLen)
        else if end + 1 == |data| && lastLen > last then this.(last := lastLen)
        else
          var kept := data[..end + 1];
          Blocks(if held then kept[end := Resize(kept[end], lastLen)] else kept, lastLen)
    }

    /** Bytes beyond the end of the file in its last block are all zero. */
    predicate StaleZero() {
      data != [] ==> var d := data[|data| - 1]; forall o :: last <= o < |d| ==> d[o] == 0
    }

    function Write(idx: nat, offset: nat, b: Data): Blocks
      requires offset < MAX_BLOCK_SIZE
    {
      (if idx >= |data| then Expand(idx + 1) else this).WriteIn(idx, offset, b)
    }
  }

  lemma BlockBounds(p: nat, n: nat, last: nat)
    requires n > 0 && p < MAX_BLOCK_SIZE * (n - 1) + last && last <= MAX_BLOCK_SIZE
    ensures p / MAX_BLOCK_SIZE < n
    ensures p / MAX_BLOCK_SIZE == n - 1 ==> p % MAX_BLOCK_SIZE < last
  {
  }

  /** What fits of b into a block from an offset. */
  function Fit(b: Data, offset: nat): Data
    requires offset < MAX_BLOCK_SIZE
  {
    b[..Min(|b|, MAX_BLOCK_SIZE - offset)]
  }

  function Expected(f: Blocks, idx: nat): nat
    requires idx < |f.data|
  {
    if idx == |f.data| - 1 then f.last else MAX_BLOCK_SIZE
  }

  lemma ReadableBlock(f: Blocks, idx: nat, offset: nat)
    requires idx < |f.data| && offset < Expected(f, idx)
    ensures f.Readable(idx, offset) == Resize(f.data[idx], Max(Expected(f, idx), |f.data[idx]|))[offset..]
  {
  }

  lemma NothingReadable(f: Blocks, idx: nat, offset: nat)
    requires idx >= |f.data| || offset >= Expected(f, idx)
    ensures f.Readable(idx, offset) == []
  {
  }

  lemma BlockLength(f: Blocks, idx: nat, offset: nat)
    requires f.WellFormed() && offset < MAX_BLOCK_SIZE
    ensures var at := idx * MAX_BLOCK_SIZE + offset;
            && (at < f.Length() <==> idx < |f.data| && offset < Expected(f, idx))
            && (at < f.Length() ==>
                  Min(f.Length(), (idx + 1) * MAX_BLOCK_SIZE) == idx * MAX_BLOCK_SIZE + Expected(f, idx))
  {
  }

  // ---------------------------------------------------------------------------------------------
  // truncate

  lemma TruncateParts(n: nat)
    requires n > 0
    ensures var end := (n - 1) / MAX_BLOCK_SIZE;
            var lastLen := n - end * MAX_BLOCK_SIZE;
            0 < lastLen <= MAX_BLOCK_SIZE && n == MAX_BLOCK_SIZE * end + lastLen
  {
  }

  /** truncate in terms of the new last block and its length. */
  lemma TruncateCases(f: Blocks, n: nat, held: bool, end: nat, lastLen: nat)
    requires 0 < lastLen <= MAX_BLOCK_SIZE && n == end * MAX_BLOCK_SIZE + lastLen
    ensures f.Truncate(n, held) ==
            if end + 1 > |f.data| then f.Expand(end + 1).(last := lastLen)
            else if end + 1 == |f.data| && lastLen > f.last then f.(last := lastLen)
            else
              var kept := f.data[..end + 1];
              Blocks(if held then kept[end := Resize(kept[end], lastLen)] else kept, lastLen)
  {
    assert (n - 1) / MAX_BLOCK_SIZE == end;
  }

  lemma TruncateKeeps(f: Blocks, n: nat, held: bool)
    requires f.WellFormed()
    ensures f.Truncate(n, held).WellFormed() && f.Truncate(n, held).Length() == n
  {
    if n > 0 {
      TruncateParts(n);
    }
  }

  /** The common prefix survives any truncation; a clean file is resized exactly. */
  lemma TruncateResizes(f: Blocks, n: nat, held: bool)
    requires f.WellFormed()
    ensures f.Truncate(n, held).WellFormed() && f.Truncate(n, held).Length() == n
    ensures forall p :: 0 <= p < Min(n, f.Length()) ==> f.Truncate(n, held).Contents()[p] == f.Contents()[p]
    ensures f.Clean() ==> f.Truncate(n, held).Contents() == Resize(f.Contents(), n)
  {
    TruncateKeeps(f, n, held);
    var g := f.Truncate(n, held);
    forall p | 0 <= p < n
      ensures p < f.Length() ==> g.ByteAt(p) == f.ByteAt(p)
      ensures p >= f.Length() && f.Clean() ==> g.ByteAt(p) == 0
    {
      TruncateByte(f, n, held, p);
    }
  }

  lemma TruncateByte(f: Blocks, n: nat, held: bool, p: nat)
    requires f.WellFormed() && p < n
    requires f.Truncate(n, held).WellFormed() && f.Truncate(n, held).Length() == n
    ensures p < f.Length() ==> f.Truncate(n, held).ByteAt(p) == f.ByteAt(p)
    ensures p >= f.Length() && f.Clean() ==> f.Truncate(n, held).ByteAt(p) == 0
  {
    TruncateParts(n);
    var g := f.Truncate(n, held);
    BlockBounds(p, |g.data|, g.last);
    if p < f.Length() {
      BlockBounds(p, |f.data|, f.last);
    }
  }

  /** A truncated file is clean exactly when it grew, or its last block was held for syncing, or the
      data of that block ends by the cut anyway. */
  lemma TruncateCleanIff(f: Blocks, n: nat, held: bool)
    requires f.WellFormed() && f.Clean() && 0 < n <= f.Length()
    ensures var end := (n - 1) / MAX_BLOCK_SIZE;
            end < |f.data| &&
            (f.Truncate(n, held).Clean() <==> held || |f.data[end]| <= n - end * MAX_BLOCK_SIZE)
  {
    TruncateParts(n);
  }

  /** Growing a file again fills with zeros, for every new length, exactly when no nonzero byte is
      left over beyond its end. */
  lemma RegrowthZeroFillsIff(f: Blocks)
    requires f.WellFormed() && f.data != []
    ensures (forall n, held :: n >= f.Length() ==>
               f.Truncate(n, held).WellFormed() && f.Truncate(n, held).Contents() == Resize(f.Contents(), n))
       <==> f.StaleZero()
  {
    if f.StaleZero() {
      forall n: nat, held | n >= f.Length()
        ensures f.Truncate(n, held).WellFormed() && f.Truncate(n, held).Contents() == Resize(f.Contents(), n)
      {
        RegrowthZeroFills(f, n, held);
      }
    } else {
      RegrowthExposes(f);
    }
  }

  lemma RegrowthZeroFills(f: Blocks, n: nat, held: bool)
    requires f.WellFormed() && f.data != [] && f.StaleZero() && n >= f.Length()
    ensures f.Truncate(n, held).WellFormed() && f.Truncate(n, held).Contents() == Resize(f.Contents(), n)
  {
    TruncateResizes(f, n, held);
    var g := f.Truncate(n, held);
    forall p | f.Length() <= p < n ensures g.ByteAt(p) == 0 {
      TruncateParts(n);
      BlockBounds(p, |g.data|, g.last);
    }
  }

  lemma RegrowthExposes(f: Blocks)
    requires f.WellFormed() && f.data != [] && !f.StaleZero()
    ensures exists n, held :: n >= f.Length() && f.Truncate(n, held).WellFormed() &&
              f.Truncate(n, held).Contents() != Resize(f.Contents(), n)
  {
    var end := |f.data| - 1;
    var o :| f.last <= o < |f.data[end]| && f.data[end][o] != 0;
    var n := MAX_BLOCK_SIZE * end + o + 1;
    TruncateKeeps(f, n, false);
    var g := f.Truncate(n, false);
    assert (n - 1) / MAX_BLOCK_SIZE == end;
    assert g == f.(last := o + 1);
    assert g.Contents()[n - 1] == g.ByteAt(n - 1) == f.data[end][o];
  }

  /** The leftover bytes also break a later write: rewriting the first byte of the last block keeps
      the length exactly when the file is clean. */
  lemma RewriteKeepsLengthIff(f: Blocks, x: byte)
    requires f.WellFormed() && f.data != [] && f.last > 0
    ensures f.WriteIn(|f.data| - 1, 0, [x]).Length() == f.Length() <==> f.Clean()
  {
    BufferWriteOverlays(f.data[|f.data| - 1], [x], 0);
  }

  /** A concrete case: a stored two-byte file is cut to one byte and grown back. */
  lemma StaleByteReturns()
    ensures var f := Blocks([[1, 2]], 2);
            f.Clean() && f.Truncate(1, false).Truncate(2, false).Contents() == [1, 2]
  {
    var f := Blocks([[1, 2]], 2);
    var g := f.Truncate(1, false);
    assert g == Blocks([[1, 2]], 1);
    assert g.Truncate(2, false) == f;
    assert f.Contents() == [1, 2];
  }

  // ---------------------------------------------------------------------------------------------
  // Conversion

  /** convertToMultiBlock: a small file's content becomes one block, or none if it is empty. */
  function FromSmall(c: Data): Blocks {
    if c == [] then Blocks([], 0) else Blocks([c], |c|)
  }

  lemma FromSmallKeepsContent(c: Data)
    requires |c| <= MAX_BLOCK_SIZE
    ensures FromSmall(c).WellFormed() && FromSmall(c).Clean() && FromSmall(c).Contents() == c
  {
  }
}
