/** What a key-value store's blocks, pending buffer and index mean. */
module KvModel {
  import opened Bytes
  import opened Lex

  type Key = seq<Byte>
  type Value = seq<Byte>

  datatype Row = Row(key: Key, value: Value)

  /** A sealed PAX block, as its rows. */
  type Block = seq<Row>
  type Slot = (nat, nat)
  type Index = map<Key, Slot>

  // ---------------------------------------------------------------- the map a store stands for

  function Flatten(blocks: seq<Block>): seq<Row> {
    if blocks == [] then [] else blocks[0] + Flatten(blocks[1..])
  }

  /** Later rows overwrite earlier ones. */
  function Replay(base: map<Key, Value>, rows: seq<Row>): map<Key, Value>
    decreases rows
  {
    if rows == [] then base else Replay(base[rows[0].key := rows[0].value], rows[1..])
  }

  /** An empty value is a tombstone. */
  function Live(m: map<Key, Value>): map<Key, Value> {
    map k | k in m && m[k] != [] :: m[k]
  }

  function Content(blocks: seq<Block>, pending: map<Key, Value>): map<Key, Value> {
    Live(Replay(map[], Flatten(blocks)) + pending)
  }

  // ---------------------------------------------------------------- the index

  /** Records the rows `block[from..]` of block number `b`. */
  function IndexRows(index: Index, b: nat, block: Block, from: nat): Index
    requires from <= |block|
    decreases |block| - from
  {
    if from == |block| then index else IndexRows(index[block[from].key := (b, from)], b, block, from + 1)
  }

  /** Records the blocks `blocks[from..]`. */
  function IndexBlocks(index: Index, blocks: seq<Block>, from: nat): Index
    requires from <= |blocks|
    decreases |blocks| - from
  {
    if from == |blocks| then index
    else IndexBlocks(IndexRows(index, from, blocks[from], 0), blocks, from + 1)
  }

  /** Where the last row of each key stands. */
  function Latest(blocks: seq<Block>): Index { IndexBlocks(map[], blocks, 0) }

  predicate Valid(blocks: seq<Block>, slot: Slot) {
    slot.0 < |blocks| && slot.1 < |blocks[slot.0]|
  }

  function At(blocks: seq<Block>, slot: Slot): Row
    requires Valid(blocks, slot)
  {
    blocks[slot.0][slot.1]
  }

  predicate SlotBefore(a: Slot, b: Slot) { a.0 < b.0 || (a.0 == b.0 && a.1 < b.1) }

  /** The two maps agree on every key outside `except`. */
  predicate AgreeOutside<V(==)>(a: map<Key, V>, b: map<Key, V>, except: set<Key>) {
    && (forall k :: k in a && k !in except ==> k in b && a[k] == b[k])
    && (forall k :: k in b && k !in except ==> k in a)
  }

  // ---------------------------------------------------------------- pending rows

  /** No key comes twice. */
  predicate Distinct(order: seq<Key>) {
    order == [] || (order[|order| - 1] !in order[..|order| - 1] && Distinct(order[..|order| - 1]))
  }

  ghost predicate OrderOk(pending: map<Key, Value>, order: seq<Key>) {
    Distinct(order) && (forall k :: k in order <==> k in pending)
  }

  function PendingRows(pending: map<Key, Value>, order: seq<Key>): (r: seq<Row>)
    requires forall k :: k in order ==> k in pending
    ensures |r| == |order|
  {
    seq(|order|, i requires 0 <= i < |order| => Row(order[i], pending[order[i]]))
  }

  // ---------------------------------------------------------------- chunking

  /** What the flush loop charges for a row. */
  function RowBytes(row: Row): nat { 8 + 8 + |row.key| + 8 + |row.value| + 16 }

  const BLOCK_OVERHEAD: nat := 64 + 3 * 64 + 256

  function Usable(blockSize: nat): nat {
    if blockSize < BLOCK_OVERHEAD then 0 else blockSize - BLOCK_OVERHEAD
  }

  /** Where the chunk that starts at row 0 ends, given that its first `i` rows take `bytes`. */
  function ChunkEnd(rows: seq<Row>, usable: nat, i: nat, bytes: nat): (n: nat)
    requires i <= |rows|
    ensures i <= n <= |rows| && (i == 0 && rows != [] ==> n > 0)
    decreases |rows| - i
  {
    if i < |rows| && !(bytes + RowBytes(rows[i]) > usable && i > 0)
    then ChunkEnd(rows, usable, i + 1, bytes + RowBytes(rows[i]))
    else i
  }

  /** The blocks a flush builds. */
  function Chunks(rows: seq<Row>, usable: nat): seq<Block> {
    if rows == [] then []
    else
      var n := ChunkEnd(rows, usable, 0, 0);
      [rows[..n]] + Chunks(rows[n..], usable)
  }

  const PENDING_CAPACITY: nat := 1024

  function Group(rows: seq<Row>): (n: nat)
    ensures n <= |rows| && (rows != [] ==> n > 0)
  {
    if |rows| < PENDING_CAPACITY then |rows| else PENDING_CAPACITY
  }

  /** The blocks that a run of puts followed by a flush builds from nothing. */
  function Layout(rows: seq<Row>, usable: nat): seq<Block> {
    if rows == [] then []
    else Chunks(rows[..Group(rows)], usable) + Layout(rows[Group(rows)..], usable)
  }

  // ---------------------------------------------------------------- sorted rows

  predicate StrictlySorted(rows: seq<Row>) {
    forall i, j :: 0 <= i < j < |rows| ==> Less(rows[i].key, rows[j].key)
  }

  /** `rows` are exactly the entries of `m`. */
  ghost predicate Lists(rows: seq<Row>, m: map<Key, Value>) {
    && (forall r :: r in rows ==> r.key in m && m[r.key] == r.value)
    && (forall k :: k in m ==> Row(k, m[k]) in rows)
  }
}
