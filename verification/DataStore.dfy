/** The content-addressed store: a map from keys to blocks, where a key is an injective function of
    the block (buffer.Key, daemon/datastore.go:303-316). */
module DataStore {
  import opened Basics
  import opened Objects
  import opened FileContent
  import ByteMerge

  type StoreKey = nat

  /** A directory record with its name. */
  datatype DirEntry = DirEntry(name: string, record: Record)

  datatype Block =
    | DataBlock(bytes: Data)
    | FileBlock(blockSize: nat, last: nat, keys: seq<StoreKey>)
    | DirectoryBlock(capacity: nat, entries: seq<DirEntry>, next: StoreKey)

  ghost predicate Injective(hash: Block -> StoreKey) {
    forall a, b :: hash(a) == hash(b) ==> a == b
  }

  /** Everything stored stays stored under its key. */
  ghost predicate Grows(before: map<StoreKey, Block>, after: map<StoreKey, Block>) {
    forall k :: k in before ==> k in after && after[k] == before[k]
  }

  function BytesOf(blocks: map<StoreKey, Block>, key: StoreKey): Data {
    if key in blocks && blocks[key].DataBlock? then blocks[key].bytes else []
  }

  ghost predicate HoldsData(blocks: map<StoreKey, Block>, key: StoreKey) {
    key in blocks && blocks[key].DataBlock? && |blocks[key].bytes| <= ByteMerge.MAX_BLOCK_SIZE
  }

  class Store {
    const hash: Block -> StoreKey
    var blocks: map<StoreKey, Block>

    constructor (hash: Block -> StoreKey)
      requires Injective(hash)
      ensures Valid() && this.hash == hash
    {
      this.hash := hash;
      blocks := map[hash(DataBlock([])) := DataBlock([])];
    }

    /** Keys name their blocks, and the empty block is always there. */
    ghost predicate Valid()
      reads this
    {
      && Injective(hash)
      && (forall k :: k in blocks ==> hash(blocks[k]) == k)
      && hash(DataBlock([])) in blocks
    }

    function EmptyBlockKey(): StoreKey {
      hash(DataBlock([]))
    }

    /** Publish a block.  Nothing stored before changes: a key in use already names this block. */
    method Set(b: Block) returns (key: StoreKey)
      requires Valid()
      modifies this
      ensures Valid()
      ensures key == hash(b) && blocks == old(blocks)[key := b]
      ensures Grows(old(blocks), blocks)
    {
      key := hash(b);
      blocks := blocks[key := b];
    }
  }
}
