/** The byte-level three-way choice behind mergeFile (daemon/merge.go). */
module ByteMerge {
  import opened Basics

  const MAX_BLOCK_SIZE: nat := 262144

  /** What the intra-file merge visits: the length of the longer file is cut to 32 bits, and
      operateOnBlocks then runs to the end of the block holding the last byte of that span. */
  function MergedSpan(length: nat): (span: nat)
    ensures length < UINT32_RANGE ==> length <= span
    ensures span % MAX_BLOCK_SIZE == 0
  {
    var cut := length % UINT32_RANGE;
    if cut == 0 then 0 else ((cut - 1) / MAX_BLOCK_SIZE + 1) * MAX_BLOCK_SIZE
  }

  /** One byte of the loops in mergeFile: `other` is overwritten by the iterator's byte or kept. */
  function LoopByte(base: Option<byte>, iter: byte, other: byte, otherIsOlder: bool): byte {
    if base.Some? then
      if other == base.value || (otherIsOlder && other != base.value && iter != base.value)
      then iter else other
    else if otherIsOlder then iter else other
  }

  function At(s: seq<byte>, i: nat): Option<byte> {
    if i < |s| then Some(s[i]) else None
  }

  function BaseAt(base: Option<seq<byte>>, i: nat): Option<byte> {
    if base.Some? then At(base.value, i) else None
  }

  /** The content that mergeFile leaves in `other`. */
  function MergedBytes(base: Option<seq<byte>>, iter: seq<byte>, other: seq<byte>, otherIsOlder: bool)
    : (r: seq<byte>)
    ensures |r| == |other|
  {
    seq(|other|, i requires 0 <= i < |other| =>
      if i < |iter| && i < MergedSpan(|other|)
      then LoopByte(BaseAt(base, i), iter[i], other[i], otherIsOlder)
      else other[i])
  }

  /** Who supplies a byte, told in terms of the two branches and not of the loop. */
  datatype Side = Local | Remote

  /** The branch that wins a conflict: the strictly newer one; on a tie the longer one; remote
      when the lengths agree too. */
  function Winner(localLen: nat, remoteLen: nat, localTime: Time, remoteTime: Time): Side {
    if localTime > remoteTime then Local
    else if remoteTime > localTime then Remote
    else if localLen > remoteLen then Local
    else Remote
  }

  /** The standard three-way choice at one offset: past the end of one file the other one is kept;
      a side that agrees with the base yields; otherwise the winner of the conflict is taken. */
  function ThreeWayByte(base: Option<byte>, local: Option<byte>, remote: Option<byte>, winner: Side)
    : Option<byte>
  {
    if local.None? then remote
    else if remote.None? then local
    else if base.Some? && local == base then remote
    else if base.Some? && remote == base then local
    else if winner.Local? then local else remote
  }

  /** chooseAccessors and the loop of mergeFile, as a function of the two branches. */
  function MergeLocalRemote(base: Option<seq<byte>>, local: seq<byte>, remote: seq<byte>,
                            localTime: Time, remoteTime: Time): (r: seq<byte>)
    ensures |r| == if |local| > |remote| then |local| else |remote|
  {
    if |local| > |remote|
    then MergedBytes(base, remote, local, remoteTime > localTime)
    else MergedBytes(base, local, remote, localTime > remoteTime)
  }

  /** Every byte of the result is the three-way choice. */
  ghost predicate IsThreeWay(base: Option<seq<byte>>, local: seq<byte>, remote: seq<byte>,
                             localTime: Time, remoteTime: Time)
  {
    var r := MergeLocalRemote(base, local, remote, localTime, remoteTime);
    forall i: nat :: At(r, i) == ThreeWayByte(BaseAt(base, i), At(local, i), At(remote, i),
                                              Winner(|local|, |remote|, localTime, remoteTime))
  }

  /** The shorter of two lengths lies within what the merge visits of the longer one. */
  predicate Visited(localLen: nat, remoteLen: nat) {
    if localLen > remoteLen then remoteLen <= MergedSpan(localLen) else localLen <= MergedSpan(remoteLen)
  }

  /** Below 4 GiB everything is visited. */
  lemma SmallIsVisited(localLen: nat, remoteLen: nat)
    requires localLen < UINT32_RANGE && remoteLen < UINT32_RANGE
    ensures Visited(localLen, remoteLen)
  {
  }

  /** Where everything is visited, the result is the three-way choice at every offset. */
  lemma MergeIsThreeWay(base: Option<seq<byte>>, local: seq<byte>, remote: seq<byte>,
                        localTime: Time, remoteTime: Time)
    requires Visited(|local|, |remote|)
    ensures IsThreeWay(base, local, remote, localTime, remoteTime)
  {
    var r := MergeLocalRemote(base, local, remote, localTime, remoteTime);
    forall i: nat
      ensures At(r, i) == ThreeWayByte(BaseAt(base, i), At(local, i), At(remote, i),
                                       Winner(|local|, |remote|, localTime, remoteTime))
    {
      var iter, other := if |local| > |remote| then remote else local,
                         if |local| > |remote| then local else remote;
      if i < |other| {
        assert r[i] == if i < |iter| && i < MergedSpan(|other|)
                       then LoopByte(BaseAt(base, i), iter[i], other[i],
                                     if |local| > |remote| then remoteTime > localTime else localTime > remoteTime)
                       else other[i];
      }
    }
  }

  /** A byte of the merge of two files of any lengths: the three-way choice where it is visited, and
      otherwise the longer file's, remote's on a tie. */
  function MergedByte(base: Option<seq<byte>>, local: seq<byte>, remote: seq<byte>, localTime: Time, remoteTime: Time,
                      i: nat): Option<byte>
  {
    var longer := if |local| > |remote| then local else remote;
    if i < MergedSpan(|longer|)
    then ThreeWayByte(BaseAt(base, i), At(local, i), At(remote, i),
                      Winner(|local|, |remote|, localTime, remoteTime))
    else At(longer, i)
  }

  lemma EveryByte(base: Option<seq<byte>>, local: seq<byte>, remote: seq<byte>, localTime: Time, remoteTime: Time,
                  i: nat)
    ensures At(MergeLocalRemote(base, local, remote, localTime, remoteTime), i)
         == MergedByte(base, local, remote, localTime, remoteTime, i)
  {
    var r := MergeLocalRemote(base, local, remote, localTime, remoteTime);
    var iter, other := if |local| > |remote| then remote else local, if |local| > |remote| then local else remote;
    if i < |other| {
      assert r[i] == if i < |iter| && i < MergedSpan(|other|)
                     then LoopByte(BaseAt(base, i), iter[i], other[i],
                                   if |local| > |remote| then remoteTime > localTime else localTime > remoteTime)
                     else other[i];
    }
  }

  ghost predicate AlwaysThreeWay(localLen: nat, remoteLen: nat) {
    forall base, local, remote, localTime, remoteTime ::
      |local| == localLen && |remote| == remoteLen ==> IsThreeWay(base, local, remote, localTime, remoteTime)
  }

  /** All merges of files of two lengths are right if and only if the shorter length is visited.  So
      5 GiB against 1 KiB is fine, and 4 GiB against one byte is not. */
  lemma ThreeWayIffVisited(localLen: nat, remoteLen: nat)
    ensures AlwaysThreeWay(localLen, remoteLen) <==> Visited(localLen, remoteLen)
  {
    if Visited(localLen, remoteLen) {
      forall base: Option<seq<byte>>, local: seq<byte>, remote: seq<byte>, localTime: Time, remoteTime: Time
        | |local| == localLen && |remote| == remoteLen
        ensures IsThreeWay(base, local, remote, localTime, remoteTime)
      {
        MergeIsThreeWay(base, local, remote, localTime, remoteTime);
      }
    } else {
      UnvisitedIsNotMerged(localLen, remoteLen);
    }
  }

  function Fill(n: nat, x: byte): (s: seq<byte>)
    ensures |s| == n && forall i :: 0 <= i < n ==> s[i] == x
  {
    seq(n, _ => x)
  }

  /** The first byte that is not visited stays the older branch's. */
  lemma UnvisitedIsNotMerged(localLen: nat, remoteLen: nat)
    requires !Visited(localLen, remoteLen)
    ensures var localLonger := localLen > remoteLen;
            !IsThreeWay(None, Fill(localLen, if localLonger then 0 else 1),
                        Fill(remoteLen, if localLonger then 1 else 0),
                        if localLonger then 0 else 1, if localLonger then 1 else 0)
  {
    var longer := localLen > remoteLen;
    var local, remote := Fill(localLen, if longer then 0 else 1), Fill(remoteLen, if longer then 1 else 0);
    var lt, rt := if longer then 0 else 1, if longer then 1 else 0;
    var i := MergedSpan(if longer then localLen else remoteLen);
    assert At(MergeLocalRemote(None, local, remote, lt, rt), i) == Some(0);
    assert ThreeWayByte(BaseAt(None, i), At(local, i), At(remote, i), Winner(localLen, remoteLen, lt, rt)) == Some(1);
  }

  /** A file of whole multiples of 4 GiB is not merged at all. */
  lemma FourGiBIsNotMerged(localLen: nat, remoteLen: nat)
    requires 0 < localLen <= remoteLen && remoteLen % UINT32_RANGE == 0
    ensures !AlwaysThreeWay(localLen, remoteLen)
  {
    ThreeWayIffVisited(localLen, remoteLen);
  }

  /** A branch that kept the base yields, but for its bytes past the end of the other one. */
  lemma OneSidedChange(base: seq<byte>, changed: seq<byte>, localTime: Time, remoteTime: Time)
    requires Visited(|changed|, |base|) && Visited(|base|, |changed|)
    ensures var r := changed + if |changed| < |base| then base[|changed|..] else [];
            && MergeLocalRemote(Some(base), changed, base, localTime, remoteTime) == r
            && MergeLocalRemote(Some(base), base, changed, localTime, remoteTime) == r
  {
    var r := changed + if |changed| < |base| then base[|changed|..] else [];
    var a := MergeLocalRemote(Some(base), changed, base, localTime, remoteTime);
    var b := MergeLocalRemote(Some(base), base, changed, localTime, remoteTime);
    MergeIsThreeWay(Some(base), changed, base, localTime, remoteTime);
    MergeIsThreeWay(Some(base), base, changed, localTime, remoteTime);
    forall i | 0 <= i < |r| ensures a[i] == r[i] && b[i] == r[i] {
      assert At(a, i) == Some(r[i]) && At(b, i) == Some(r[i]);
    }
  }
}
