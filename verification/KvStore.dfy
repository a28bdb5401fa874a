/** The key-value projection: a pending buffer, sealed blocks and an index behaving as one map. */
module KvStoreCode {
  import opened Wrappers
  import opened Bytes
  import opened Lex
  import opened KvModel
  import opened KvProofs
  import opened KvLayout

  function Lookup(m: map<Key, Value>, k: Key): Option<Value> {
    if k in m then Some(m[k]) else None
  }

  class KvStore {
    const blockSize: nat
    /** Whether the PAX builder can seal these rows into one block. */
    const accepts: Block -> bool
    var blocks: seq<Block>
    var index: Index
    var pending: map<Key, Value>
    var pendingOrder: seq<Key>

    /** Outside the pending keys, the index knows each key's last row and nothing else. */
    ghost predicate Valid()
      reads this
    {
      OrderOk(pending, pendingOrder) && AgreeOutside(index, Latest(blocks), pending.Keys)
    }

    /** The same, but the index need not know about `k`. */
    ghost predicate ValidBut(k: Key)
      reads this
    {
      OrderOk(pending, pendingOrder) && AgreeOutside(index, Latest(blocks), pending.Keys + {k})
    }

    /** The map this store stands for. */
    ghost function View(): map<Key, Value>
      reads this
    {
      Content(blocks, pending)
    }

    /** Every block was accepted by the builder and holds what the flush loop puts in a block. */
    ghost predicate Sealed()
      reads this
    {
      WellSealed(accepts, blocks, Usable(blockSize))
    }

    /** The builder would take all blocks of a flush now. */
    ghost predicate CanFlush()
      reads this
      requires Valid()
    {
      AllAccepted(accepts, Chunks(PendingRows(pending, pendingOrder), Usable(blockSize)))
    }

    constructor (blockSize: nat, accepts: Block -> bool)
      ensures Sealed() && pending == map[]
      ensures Valid() && View() == map[] && blocks == [] && pendingOrder == []
      ensures this.blockSize == blockSize && this.accepts == accepts
    {
      this.blockSize, this.accepts := blockSize, accepts;
      blocks, index, pending, pendingOrder := [], map[], map[], [];
    }

    method Put(key: Key, value: Value) returns (ok: bool)
      requires ValidBut(key)
      modifies this
      ensures Valid()
      ensures View() == if value == [] then old(View()) - {key} else old(View())[key := value]
      ensures var p := old(pending)[key := value];
              var o := if key in old(pending) then old(pendingOrder) else old(pendingOrder) + [key];
              && PutOutcome(ok, old(blocks), p, o, blocks, pending, pendingOrder, Usable(blockSize))
              && (ok <==> |p| < PENDING_CAPACITY || AllAccepted(accepts, Chunks(PendingRows(p, o), Usable(blockSize))))
      ensures old(Sealed()) ==> Sealed()
    {
      OrderAfterPut(pending, pendingOrder, key, value);
      AgreeAfterPut(index, Latest(blocks), pending, key, value);
      PutContent(blocks, pending, key, value);
      if key !in pending {
        pendingOrder := pendingOrder + [key];
      }
      pending := pending[key := value];
      ok := true;
      if |pending| >= PENDING_CAPACITY {
        ok := FlushPending();
      }
    }

    method Get(key: Key) returns (r: Option<Value>)
      requires Valid()
      ensures r == Lookup(View(), key)
    {
      if key in pending {
        var v := pending[key];
        return if v == [] then None else Some(v);
      }
      LatestReads(blocks);
      if key in index {
        var value := At(blocks, index[key]).value;
        return if value == [] then None else Some(value);
      }
      return None;
    }

    /** Removes the key whether or not the tombstone's flush succeeds; `existed` says that the
        buffer or the index knew the key, not that a value was visible. */
    method Delete(key: Key) returns (ok: bool, existed: bool)
      requires Valid()
      modifies this
      ensures Valid() && View() == old(View()) - {key}
      ensures existed <==> key in old(pending) || key in old(index)
      ensures key in old(View()) ==> existed
      ensures old(Sealed()) ==> Sealed()
      ensures !existed ==> ok && blocks == old(blocks) && pending == old(pending)
    {
      existed := Forget(key);
      ok := true;
      if existed {
        ok := PutTombstone(key);
      }
    }

    /** The put that ends a delete. */
    method PutTombstone(key: Key) returns (ok: bool)
      requires ValidBut(key)
      modifies this
      ensures Valid() && View() == old(View()) - {key} && (old(Sealed()) ==> Sealed())
    {
      ok := Put(key, []);
    }

    /** Drops the key from the index and from the buffer. */
    method Forget(key: Key) returns (existed: bool)
      requires Valid()
      modifies this`index, this`pending, this`pendingOrder
      ensures ValidBut(key) && View() - {key} == old(View()) - {key}
      ensures existed <==> key in old(pending) || key in old(index)
      ensures !existed ==> Valid() && pending == old(pending) && key !in View()
    {
      KeyRemoved(blocks, index, pending, pendingOrder, key);
      var inIndex := key in index;
      index := index - {key};
      var inPending := key in pending;
      pending := pending - {key};
      if inPending {
        pendingOrder := Retain(pendingOrder, key);
      }
      existed := inIndex || inPending;
    }

    /** Seals the pending rows, in insertion order, into as many blocks as needed.  If the builder
        refuses a block, earlier ones stay and the buffer is kept: the map is unchanged anyway. */
    method FlushPending() returns (ok: bool)
      requires Valid()
      modifies this
      ensures Valid() && View() == old(View())
      ensures ok <==> old(CanFlush())
      ensures old(Sealed()) ==> Sealed()
      ensures ok ==> pending == map[] && pendingOrder == []
      ensures ok ==> blocks == old(blocks) + Chunks(PendingRows(old(pending), old(pendingOrder)), Usable(blockSize))
      ensures !ok ==> pending == old(pending) && pendingOrder == old(pendingOrder) && old(blocks) <= blocks
    {
      if pending == map[] {
        EmptyPending(pending, pendingOrder);
        assert PendingRows(pending, pendingOrder) == [] && blocks + [] == blocks;
        return true;
      }
      ghost var start, index0 := blocks, index;
      var ordered := PendingRows(pending, pendingOrder);
      ghost var done;
      ok, done := SealChunks(ordered);
      if old(Sealed()) {
        FlushSeals(accepts, start, done, index, ordered, Usable(blockSize));
      }
      if ok {
        FlushEnds(start, done, index, ordered, Usable(blockSize), pending, pendingOrder);
        pending := map[];
        pendingOrder := [];
      } else {
        FlushStops(start, done, index, ordered, Usable(blockSize), pending, pendingOrder);
      }
    }

    /** The chunking loop: seals and indexes blocks until the rows run out or one is refused. */
    method SealChunks(ordered: seq<Row>) returns (ok: bool, ghost done: seq<Block>)
      requires OrderOk(pending, pendingOrder) && ordered == PendingRows(pending, pendingOrder)
      requires AgreeOutside(index, Latest(blocks), pending.Keys)
      modifies this`blocks, this`index
      ensures blocks == old(blocks) + done && AllAccepted(accepts, done)
      ensures FlushingSome(old(blocks), done, index, ordered, Usable(blockSize))
      ensures ok ==> Flushing(old(blocks), done, index, ordered, |ordered|, Usable(blockSize))
      ensures ok <==> AllAccepted(accepts, Chunks(ordered, Usable(blockSize)))
    {
      var usable := Usable(blockSize);
      var idx := 0;
      done := [];
      FlushBegins(blocks, index, pending, pendingOrder, usable);
      while idx < |ordered|
        invariant 0 <= idx <= |ordered|
        invariant blocks == old(blocks) + done && AllAccepted(accepts, done)
        invariant Flushing(old(blocks), done, index, ordered, idx, usable)
      {
        var chunkStart := idx;
        idx := ScanChunk(ordered, chunkStart, usable);
        FlushAdvances(old(blocks), done, index, pending, pendingOrder, ordered, chunkStart, idx, usable);
        var block := ordered[chunkStart..idx];
        if !accepts(block) {
          return false, done;
        }
        IndexChunk(block);
        assert old(blocks) + done + [block] == old(blocks) + (done + [block]);
        blocks := blocks + [block];
        done := done + [block];
      }
      FlushDone(old(blocks), done, index, ordered, usable);
      ok := true;
    }

    /** Where the chunk that starts at `chunkStart` ends. */
    static method ScanChunk(ordered: seq<Row>, chunkStart: nat, usable: nat) returns (idx: nat)
      requires chunkStart < |ordered|
      ensures idx == chunkStart + ChunkEnd(ordered[chunkStart..], usable, 0, 0)
      ensures chunkStart < idx <= |ordered|
    {
      idx := chunkStart;
      var chunkBytes: nat := 0;
      ghost var rows := ordered[chunkStart..];
      while idx < |ordered|
        invariant chunkStart <= idx <= |ordered|
        invariant ChunkEnd(rows, usable, idx - chunkStart, chunkBytes) == ChunkEnd(rows, usable, 0, 0)
      {
        var rowBytes := RowBytes(ordered[idx]);
        if chunkBytes + rowBytes > usable && idx > chunkStart {
          break;
        }
        chunkBytes := chunkBytes + rowBytes;
        idx := idx + 1;
      }
    }

    // -------------------------------------------------------------- compaction

    /** Rewrites the live rows, sorted by key, into blocks built from nothing.  It succeeds exactly if
        the builder takes the pending rows and the new layout.  Once the old blocks are dropped, a
        refused block loses the rows not yet put back: all live rows are still visible exactly if
        the first flush was refused or no group before the last one was. */
    method Compact() returns (ok: bool, stats: CompactionStats)
      requires Valid()
      modifies this
      ensures Valid() && (old(Sealed()) ==> Sealed())
      ensures Within(View(), old(View()))
      ensures ok <==> old(CanFlush()) && LayoutTaken(accepts, Listing(old(View())), Usable(blockSize))
      ensures View() == old(View()) <==> !old(CanFlush()) || FrontTaken(accepts, Listing(old(View())), Usable(blockSize))
      ensures ok ==> View() == old(View()) && Rebuilt()
      ensures ok ==> stats == StatsOf(old(BlocksFlushed()), |blocks|, old(RowsFlushed()), |View()|, blockSize)
      ensures old(Sealed()) && TakesWhatFits(accepts, Usable(blockSize)) ==> (ok <==> old(CanFlush()))
    {
      stats := CompactionStats(0, 0, 0, 0, 0);
      var blocksBefore, rowsBefore;
      ok, blocksBefore, rowsBefore := FlushFirst();
      if ok {
        ok := RewriteLive();
        if ok {
          stats := Report(blocksBefore, |blocks|, rowsBefore, |Flatten(blocks)|);
        }
      }
    }

    /** How many blocks and rows there are once the buffer is flushed. */
    ghost function BlocksFlushed(): nat
      reads this
      requires Valid()
    {
      |blocks| + |Chunks(PendingRows(pending, pendingOrder), Usable(blockSize))|
    }

    ghost function RowsFlushed(): nat
      reads this
    {
      |Flatten(blocks)| + |pendingOrder|
    }

    /** The flush at the start of a compaction, and the sizes before it. */
    method FlushFirst() returns (ok: bool, blocksBefore: nat, rowsBefore: nat)
      requires Valid()
      modifies this
      ensures Valid() && View() == old(View()) && (ok <==> old(CanFlush())) && (old(Sealed()) ==> Sealed())
      ensures ok ==> pending == map[] && blocksBefore == old(BlocksFlushed()) && rowsBefore == old(RowsFlushed())
    {
      ok := FlushPending();
      blocksBefore, rowsBefore := |blocks|, |Flatten(blocks)|;
      FlushedSize(old(blocks), PendingRows(old(pending), old(pendingOrder)), Usable(blockSize));
    }

    method Report(blocksBefore: nat, blocksAfter: nat, rowsBefore: nat, rowsAfter: nat) returns (stats: CompactionStats)
      ensures stats == StatsOf(blocksBefore, blocksAfter, rowsBefore, rowsAfter, blockSize)
    {
      BytesReclaimed(blocksBefore, blocksAfter, blockSize);
      var bytesBefore, bytesAfter := blocksBefore * blockSize, blocksAfter * blockSize;
      var bytesReclaimed := if bytesBefore < bytesAfter then 0 else bytesBefore - bytesAfter;
      stats := CompactionStats(blocksBefore, blocksAfter, rowsBefore, rowsAfter, bytesReclaimed);
    }

    /** Nothing is pending and the blocks are the layout of the live rows in key order. */
    ghost predicate Rebuilt()
      reads this
    {
      && pending == map[] && pendingOrder == []
      && Flatten(blocks) == Listing(View()) && |Flatten(blocks)| == |View()| && blocks == Layout(Listing(View()), Usable(blockSize))
    }

    /** Compaction once nothing is pending. */
    method RewriteLive() returns (ok: bool)
      requires Valid() && pending == map[]
      modifies this
      ensures Valid() && Sealed() && Within(View(), old(View()))
      ensures ok <==> LayoutTaken(accepts, Listing(old(View())), Usable(blockSize))
      ensures View() == old(View()) <==> FrontTaken(accepts, Listing(old(View())), Usable(blockSize))
      ensures ok ==> View() == old(View()) && Rebuilt()
      ensures old(Sealed()) && TakesWhatFits(accepts, Usable(blockSize)) ==> ok
    {
      ghost var view, sealed, taken := View(), blocks, Sealed() && TakesWhatFits(accepts, Usable(blockSize));
      EmptyPending(pending, pendingOrder);
      var survivors := CollectSurvivors();
      blocks := [];
      index := map[];
      SortedByKeySorts(survivors);
      survivors := SortedByKey(survivors);
      ListingIs(survivors, view);
      ListingSize(survivors, view);
      if taken {
        LiveTaken(accepts, sealed, survivors, Usable(blockSize));
      }
      ok := Rewrite(survivors, view);
    }

    /** Reads the live entries through the index, in whatever order the hash map yields. */
    method CollectSurvivors() returns (survivors: seq<Row>)
      requires Valid() && pending == map[]
      ensures Lists(survivors, View()) && DistinctKeys(survivors)
    {
      LatestReads(blocks);
      survivors := [];
      var keys := index.Keys;
      while keys != {}
        invariant keys <= index.Keys && DistinctKeys(survivors)
        invariant forall r :: r in survivors ==> r.key !in keys && r.key in View() && View()[r.key] == r.value
        invariant forall k :: k in View() ==> k in keys || Row(k, View()[k]) in survivors
        decreases keys
      {
        var key :| key in keys;
        var value := At(blocks, index[key]).value;
        if value != [] {
          survivors := survivors + [Row(key, value)];
        }
        keys := keys - {key};
      }
    }

    /** Puts the sorted survivors back, flushing whenever the buffer fills up and at the end. */
    method Rewrite(rows: seq<Row>, ghost view: map<Key, Value>) returns (ok: bool)
      requires blocks == [] && index == map[] && pending == map[] && pendingOrder == []
      requires rows == Listing(view) && forall k :: k in view ==> view[k] != []
      modifies this
      ensures Valid() && Sealed() && Within(View(), view)
      ensures ok <==> LayoutTaken(accepts, rows, Usable(blockSize))
      ensures View() == view <==> FrontTaken(accepts, rows, Usable(blockSize))
      ensures ok ==> View() == view && pending == map[] && pendingOrder == []
      ensures ok ==> Flatten(blocks) == rows && blocks == Layout(rows, Usable(blockSize))
    {
      LayoutFlatten(rows, Usable(blockSize));
      RewriteBegins(blocks, index, pending, pendingOrder, rows, Usable(blockSize));
      ListingIsLoadable(rows, view);
      ghost var n;
      ok, n := PutRows(rows);
      if ok {
        AllBack(View(), rows, view);
        RewriteReady(accepts, blocks, PendingRows(pending, pendingOrder), rows, Usable(blockSize));
        ok := FlushPending();
      } else {
        RewriteRefused(accepts, View(), rows, n, view, Usable(blockSize));
      }
    }

    /** The loop over the survivors; it stops behind row `n - 1` if the group that ends there is refused. */
    method PutRows(rows: seq<Row>) returns (ok: bool, ghost n: nat)
      requires Rebuilding(rows, 0) && Loadable(rows)
      modifies this
      ensures if ok then n == |rows| && Rebuilding(rows, n) else Halted(rows, n)
    {
      var i := 0;
      while i < |rows|
        invariant 0 <= i <= |rows| && Rebuilding(rows, i)
      {
        ok := PutRow(rows, i);
        if !ok {
          return ok, i + 1;
        }
        i := i + 1;
      }
      return true, i;
    }

    /** The first `i` rows are back, in sealed groups and in the buffer. */
    ghost predicate Rebuilding(rows: seq<Row>, i: nat)
      reads this
    {
      && Valid() && Sealed() && |pendingOrder| < PENDING_CAPACITY
      && Rewriting(blocks, PendingRows(pending, pendingOrder), rows, i, Usable(blockSize)) && PutBack(View(), rows, i)
    }

    /** The group that ends behind row `n - 1` was refused; the first `n` rows are back. */
    ghost predicate Halted(rows: seq<Row>, n: nat)
      reads this
    {
      Valid() && Sealed() && StoppedAt(accepts, rows, n, Usable(blockSize)) && PutBack(View(), rows, n)
    }

    /** One iteration of the loop above; it fails only when it completes a group that is refused. */
    method PutRow(rows: seq<Row>, i: nat) returns (ok: bool)
      requires Rebuilding(rows, i) && i < |rows| && Loadable(rows)
      modifies this
      ensures if ok then Rebuilding(rows, i + 1) else Halted(rows, i + 1)
    {
      AscendingIsSorted(rows);
      LivingAt(rows, 0, i);
      PutBackStep(View(), rows, i);
      RewriteStep(blocks, pending, pendingOrder, rows, i, Usable(blockSize));
      AgreeWeaken(index, Latest(blocks), pending.Keys, pending.Keys + {rows[i].key});
      ok := Put(rows[i].key, rows[i].value);
      if ok {
        RowRewrites(old(blocks), old(pending), old(pendingOrder), blocks, pending, pendingOrder, rows, i, Usable(blockSize));
      } else {
        RefusedGroup(old(blocks), old(pending), old(pendingOrder), rows, i, Usable(blockSize));
      }
    }

    // -------------------------------------------------------------- persistence

    /** Writes the blocks to a segment. */
    method PersistToSegment() returns (ok: bool, segment: seq<Block>)
      requires Valid()
      modifies this
      ensures Valid() && View() == old(View()) && (old(Sealed()) ==> Sealed())
      ensures ok <==> old(CanFlush())
      ensures ok ==> segment == blocks && pending == map[] && index == Latest(blocks)
    {
      ok := FlushPending();
      segment := [];
      if ok {
        AgreeEverywhere(index, Latest(blocks));
        segment := AppendBlocks(blocks);
      }
    }

    static method AppendBlocks(blocks: seq<Block>) returns (segment: seq<Block>)
      ensures segment == blocks
    {
      segment := [];
      for i := 0 to |blocks|
        invariant segment == blocks[..i]
      {
        segment := segment + [blocks[i]];
      }
    }

    static method LoadFromSegment(segment: seq<Block>, blockSize: nat, accepts: Block -> bool)
      returns (store: KvStore)
      ensures fresh(store) && store.Valid() && store.blockSize == blockSize && store.accepts == accepts
      ensures store.blocks == segment && store.pending == map[] && store.pendingOrder == [] && store.index == Latest(segment)
      ensures store.View() == Content(segment, map[])
    {
      store := new KvStore(blockSize, accepts);
      for b := 0 to |segment|
        invariant store.blocks == segment[..b] && store.pending == map[] && store.pendingOrder == []
        invariant IndexBlocks(store.index, segment, b) == Latest(segment)
      {
        for slot := 0 to |segment[b]|
          invariant store.blocks == segment[..b] && store.pending == map[] && store.pendingOrder == []
          invariant IndexBlocks(IndexRows(store.index, b, segment[b], slot), segment, b + 1) == Latest(segment)
        {
          store.index := store.index[segment[b][slot].key := (b, slot)];
        }
        store.blocks := store.blocks + [segment[b]];
      }
      assert segment[..|segment|] == segment;
    }

    method IndexChunk(block: Block)
      modifies this`index
      ensures index == IndexRows(old(index), |blocks|, block, 0)
    {
      var blockId := |blocks|;
      for slot := 0 to |block|
        invariant IndexRows(index, blockId, block, slot) == IndexRows(old(index), blockId, block, 0)
      {
        index := index[block[slot].key := (blockId, slot)];
      }
    }
  }

  datatype CompactionStats = CompactionStats(blocksBefore: nat, blocksAfter: nat,
                                             rowsBefore: nat, rowsAfter: nat, bytesReclaimed: nat)

  /** What a compaction reports: the bytes reclaimed are those of the blocks saved, or none. */
  function StatsOf(blocksBefore: nat, blocksAfter: nat, rowsBefore: nat, rowsAfter: nat, blockSize: nat): CompactionStats {
    CompactionStats(blocksBefore, blocksAfter, rowsBefore, rowsAfter, BytesSaved(blocksBefore, blocksAfter, blockSize))
  }

  /** A store loaded from a segment answers every get as the one that wrote it. */
  method PersistAndReload(store: KvStore) returns (ok: bool, loaded: KvStore)
    requires store.Valid()
    modifies store
    ensures store.View() == old(store.View())
    ensures ok <==> old(store.CanFlush())
    ensures ok ==> loaded.Valid() && loaded.View() == old(store.View()) && (old(store.Sealed()) ==> loaded.Sealed())
    ensures ok ==> loaded.blocks == store.blocks && loaded.index == store.index
  {
    var segment;
    ok, segment := store.PersistToSegment();
    loaded := KvStore.LoadFromSegment(segment, store.blockSize, store.accepts);
  }

  /** Compacting again succeeds and rebuilds the identical block sequence. */
  method CompactTwice(store: KvStore) returns (ok: bool, again: bool, ghost first: seq<Block>)
    requires store.Valid()
    modifies store
    ensures ok <==> old(store.CanFlush()) && LayoutTaken(store.accepts, Listing(old(store.View())), Usable(store.blockSize))
    ensures ok ==> again && store.blocks == first && store.View() == old(store.View())
  {
    var stats;
    again := false;
    ok, stats := store.Compact();
    first := store.blocks;
    if ok {
      NothingPending(store.accepts, store.pending, store.pendingOrder, Usable(store.blockSize));
      again, stats := store.Compact();
    }
  }

  // ---------------------------------------------------------------- iteration

  function SkipTombstones(rows: seq<Row>): seq<Row> {
    if rows == [] then []
    else if rows[0].value == [] then SkipTombstones(rows[1..])
    else [rows[0]] + SkipTombstones(rows[1..])
  }

  /** Walks the pending rows in insertion order, then the rows of the blocks, skipping tombstones
      in the blocks only. */
  class KvIter {
    const store: KvStore
    var pendingIdx: nat
    var blockIdx: nat
    var slotIdx: nat

    constructor (store: KvStore)
      requires store.Valid()
      ensures this.store == store && Valid()
      ensures Remaining() == PendingRows(store.pending, store.pendingOrder) + SkipTombstones(Flatten(store.blocks))
    {
      this.store := store;
      pendingIdx, blockIdx, slotIdx := 0, 0, 0;
      new;
      assert store.blocks != [] ==> store.blocks[0] + Flatten(store.blocks[1..]) == Flatten(store.blocks);
    }

    ghost predicate Valid()
      reads this, store
    {
      && OrderOk(store.pending, store.pendingOrder)
      && pendingIdx <= |store.pendingOrder| && blockIdx <= |store.blocks|
      && slotIdx <= (if blockIdx < |store.blocks| then |store.blocks[blockIdx]| else 0)
    }

    /** What the iterator has still to yield. */
    ghost function Remaining(): seq<Row>
      reads this, store
      requires Valid()
    {
      PendingRows(store.pending, store.pendingOrder)[pendingIdx..] + SkipTombstones(RowsLeft())
    }

    ghost function RowsLeft(): seq<Row>
      reads this, store
      requires Valid()
    {
      RowsFrom(store.blocks, blockIdx, slotIdx)
    }

    method Next() returns (r: Option<Row>)
      requires Valid()
      modifies this
      ensures Valid()
      ensures old(Remaining()) == match r case None => [] case Some(row) => [row] + Remaining()
    {
      if pendingIdx < |store.pendingOrder| {
        var k := store.pendingOrder[pendingIdx];
        pendingIdx := pendingIdx + 1;
        return Some(Row(k, store.pending[k]));
      }
      r := NextSealed();
    }

    method NextSealed() returns (r: Option<Row>)
      requires Valid() && pendingIdx == |store.pendingOrder|
      modifies this`blockIdx, this`slotIdx
      ensures Valid()
      ensures SkipTombstones(old(RowsLeft())) ==
              match r case None => [] case Some(row) => [row] + SkipTombstones(RowsLeft())
    {
      while blockIdx < |store.blocks|
        invariant Valid() && SkipTombstones(RowsLeft()) == SkipTombstones(old(RowsLeft()))
        decreases |store.blocks| - blockIdx, if blockIdx < |store.blocks| then |store.blocks[blockIdx]| - slotIdx else 0
      {
        if slotIdx >= |store.blocks[blockIdx]| {
          NextBlock(store.blocks, blockIdx);
          blockIdx := blockIdx + 1;
          slotIdx := 0;
          continue;
        }
        NextSlot(store.blocks, blockIdx, slotIdx);
        var row := store.blocks[blockIdx][slotIdx];
        slotIdx := slotIdx + 1;
        if row.value == [] {
          continue;
        }
        return Some(row);
      }
      return None;
    }
  }

  function RowsFrom(blocks: seq<Block>, b: nat, slot: nat): seq<Row>
    requires b <= |blocks| && slot <= (if b < |blocks| then |blocks[b]| else 0)
  {
    if b == |blocks| then [] else blocks[b][slot..] + Flatten(blocks[b + 1..])
  }

  lemma NextBlock(blocks: seq<Block>, b: nat)
    requires b < |blocks|
    ensures RowsFrom(blocks, b, |blocks[b]|) == RowsFrom(blocks, b + 1, 0)
  {
    var rest := blocks[b + 1..];
    if rest != [] {
      assert rest[0] == blocks[b + 1] && rest[1..] == blocks[b + 2..];
    }
  }

  lemma NextSlot(blocks: seq<Block>, b: nat, slot: nat)
    requires b < |blocks| && slot < |blocks[b]|
    ensures SkipTombstones(RowsFrom(blocks, b, slot)) ==
            if blocks[b][slot].value == [] then SkipTombstones(RowsFrom(blocks, b, slot + 1))
            else [blocks[b][slot]] + SkipTombstones(RowsFrom(blocks, b, slot + 1))
  {
    assert RowsFrom(blocks, b, slot)[1..] == RowsFrom(blocks, b, slot + 1);
  }

  /** After compaction the iterator starts with exactly the live map, sorted, once per key. */
  method IterAfterCompact(store: KvStore) returns (ok: bool, iter: KvIter)
    requires store.Valid()
    modifies store
    ensures iter.Valid() && iter.store == store
    ensures ok <==> old(store.CanFlush()) && LayoutTaken(store.accepts, Listing(old(store.View())), Usable(store.blockSize))
    ensures ok ==> iter.Remaining() == Listing(old(store.View()))
  {
    var stats;
    ok, stats := store.Compact();
    iter := new KvIter(store);
    if ok {
      EmptyPending(store.pending, store.pendingOrder);
      NoTombstones(Flatten(store.blocks), store.View());
      assert [] + SkipTombstones(Flatten(store.blocks)) == Flatten(store.blocks);
    }
  }

  lemma {:induction false} NoTombstones(rows: seq<Row>, view: map<Key, Value>)
    requires (forall r :: r in rows ==> r.key in view && view[r.key] == r.value) && (forall k :: k in view ==> view[k] != [])
    ensures SkipTombstones(rows) == rows
  {
    if rows != [] {
      assert rows[0] in rows;
      NoTombstones(rows[1..], view);
      assert [rows[0]] + rows[1..] == rows;
    }
  }
}
