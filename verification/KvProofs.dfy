/** Facts about replaying, indexing and chunking rows. */
module KvProofs {
  import opened Bytes
  import opened Lex
  import opened KvModel

  // ---------------------------------------------------------------- replay

  lemma {:induction false} FlattenConcat(a: seq<Block>, b: seq<Block>)
    ensures Flatten(a + b) == Flatten(a) + Flatten(b)
  {
    if a == [] {
      assert a + b == b;
    } else {
      FlattenConcat(a[1..], b);
      assert (a + b)[1..] == a[1..] + b;
    }
  }

  lemma {:induction false} ReplayConcat(base: map<Key, Value>, a: seq<Row>, b: seq<Row>)
    ensures Replay(base, a + b) == Replay(Replay(base, a), b)
    decreases a
  {
    if a == [] {
      assert a + b == b;
    } else {
      ReplayConcat(base[a[0].key := a[0].value], a[1..], b);
      assert (a + b)[1..] == a[1..] + b;
    }
  }

  /** Writing rows that are already pending, or that stay pending, is invisible. */
  lemma {:induction false} ReplayShadowed(base: map<Key, Value>, rows: seq<Row>, pending: map<Key, Value>)
    requires forall r :: r in rows ==> r.key in pending
    ensures Replay(base, rows) + pending == base + pending
    decreases rows
  {
    if rows != [] {
      assert rows[0] in rows;
      ReplayShadowed(base[rows[0].key := rows[0].value], rows[1..], pending);
    }
  }

  lemma {:induction false} ReplayUntouched(base: map<Key, Value>, rows: seq<Row>, k: Key)
    requires forall r :: r in rows ==> r.key != k
    ensures k in Replay(base, rows) <==> k in base
    ensures k in base ==> Replay(base, rows)[k] == base[k]
    decreases rows
  {
    if rows != [] {
      assert rows[0] in rows;
      ReplayUntouched(base[rows[0].key := rows[0].value], rows[1..], k);
    }
  }

  predicate NoDuplicates(order: seq<Key>) {
    forall i, j :: 0 <= i < j < |order| ==> order[i] != order[j]
  }

  lemma {:induction false} DistinctPairs(order: seq<Key>)
    requires Distinct(order)
    ensures NoDuplicates(order)
  {
    if order != [] {
      var rest := order[..|order| - 1];
      DistinctPairs(rest);
      forall i, j | 0 <= i < j < |order| ensures order[i] != order[j] {
        assert order[i] == rest[i] && rest[i] in rest;
        assert j < |rest| ==> order[j] == rest[j];
      }
    }
  }

  lemma DistinctAppend(order: seq<Key>, k: Key)
    requires Distinct(order) && k !in order
    ensures Distinct(order + [k])
  {
    assert (order + [k])[..|order|] == order;
  }

  lemma {:induction false} PairsDistinct(order: seq<Key>)
    requires NoDuplicates(order)
    ensures Distinct(order)
  {
    if order != [] {
      PairsDistinct(order[..|order| - 1]);
    }
  }

  /** Writing every pending row makes the blocks hold what the buffer held. */
  lemma {:induction false} ReplayPending(base: map<Key, Value>, pending: map<Key, Value>, order: seq<Key>)
    requires OrderOk(pending, order)
    ensures Replay(base, PendingRows(pending, order)) == base + pending
  {
    var rows := PendingRows(pending, order);
    DistinctPairs(order);
    forall i | 0 <= i < |rows| ensures rows[i].key in Replay(base, rows) && Replay(base, rows)[rows[i].key] == pending[rows[i].key] {
      var upTo := rows[..i + 1];
      assert rows == upTo + rows[i + 1..];
      assert upTo == rows[..i] + [rows[i]];
      ReplayConcat(base, upTo, rows[i + 1..]);
      ReplayConcat(base, rows[..i], [rows[i]]);
      ReplayUntouched(Replay(base, upTo), rows[i + 1..], rows[i].key);
    }
    ReplayShadowed(base, rows, pending);
    forall k | k in pending ensures k in Replay(base, rows) && Replay(base, rows)[k] == pending[k] {
      var i :| 0 <= i < |order| && order[i] == k;
      assert rows[i].key == k;
    }
    assert Replay(base, rows) == Replay(base, rows) + pending;
  }

  // ---------------------------------------------------------------- index

  function KeysFrom(block: Block, from: nat): set<Key> {
    set i | from <= i < |block| :: block[i].key
  }

  lemma {:induction false} IndexRowsAgree(a: Index, b: Index, n: nat, block: Block, from: nat, except: set<Key>)
    requires from <= |block| && AgreeOutside(a, b, except)
    ensures AgreeOutside(IndexRows(a, n, block, from), IndexRows(b, n, block, from),
                         except - KeysFrom(block, from))
    decreases |block| - from
  {
    if from < |block| {
      var k := block[from].key;
      IndexRowsAgree(a[k := (n, from)], b[k := (n, from)], n, block, from + 1, except - {k});
      assert except - {k} - KeysFrom(block, from + 1) == except - KeysFrom(block, from);
    } else {
      assert KeysFrom(block, from) == {};
    }
  }

  lemma {:induction false} IndexBlocksAppend(index: Index, blocks: seq<Block>, block: Block, from: nat)
    requires from <= |blocks|
    ensures IndexBlocks(index, blocks + [block], from) ==
            IndexRows(IndexBlocks(index, blocks, from), |blocks|, block, 0)
    decreases |blocks| - from
  {
    var more := blocks + [block];
    if from < |blocks| {
      assert more[from] == blocks[from];
      IndexBlocksAppend(IndexRows(index, from, blocks[from], 0), blocks, block, from + 1);
    } else {
      assert more[from] == block;
      assert IndexBlocks(index, more, from) == IndexBlocks(IndexRows(index, from, block, 0), more, from + 1);
    }
  }

  lemma LatestAppend(blocks: seq<Block>, block: Block)
    ensures Latest(blocks + [block]) == IndexRows(Latest(blocks), |blocks|, block, 0)
  {
    IndexBlocksAppend(map[], blocks, block, 0);
  }

  /** `index` points at rows that carry the key, with the values of `m`. */
  ghost predicate Reads(index: Index, blocks: seq<Block>, m: map<Key, Value>) {
    && index.Keys == m.Keys
    && forall k :: k in index ==> KvModel.Valid(blocks, index[k]) && At(blocks, index[k]) == Row(k, m[k])
  }

  lemma {:induction false} IndexRowsReads(index: Index, blocks: seq<Block>, m: map<Key, Value>, n: nat, from: nat)
    requires n < |blocks| && from <= |blocks[n]| && Reads(index, blocks, m)
    ensures Reads(IndexRows(index, n, blocks[n], from), blocks, Replay(m, blocks[n][from..]))
    decreases |blocks[n]| - from
  {
    var block := blocks[n];
    if from < |block| {
      var row := block[from];
      assert block[from..][1..] == block[from + 1..];
      IndexRowsReads(index[row.key := (n, from)], blocks, m[row.key := row.value], n, from + 1);
    }
  }

  lemma {:induction false} IndexBlocksReads(index: Index, blocks: seq<Block>, m: map<Key, Value>, from: nat)
    requires from <= |blocks| && Reads(index, blocks, m)
    ensures Reads(IndexBlocks(index, blocks, from), blocks, Replay(m, Flatten(blocks[from..])))
    decreases |blocks| - from
  {
    if from < |blocks| {
      IndexRowsReads(index, blocks, m, from, 0);
      assert blocks[from][0..] == blocks[from];
      IndexBlocksReads(IndexRows(index, from, blocks[from], 0), blocks, Replay(m, blocks[from]), from + 1);
      assert blocks[from..][1..] == blocks[from + 1..];
      ReplayConcat(m, blocks[from], Flatten(blocks[from + 1..]));
    }
  }

  /** The index of a block sequence answers every key as replaying its rows does. */
  lemma LatestReads(blocks: seq<Block>)
    ensures Reads(Latest(blocks), blocks, Replay(map[], Flatten(blocks)))
  {
    IndexBlocksReads(map[], blocks, map[], 0);
    assert blocks[0..] == blocks;
  }

  // ---------------------------------------------------------------- the last row

  /** Rows before position `(n, from)` whose key is indexed do not lie behind their index entry. */
  ghost predicate UpToDate(index: Index, blocks: seq<Block>, n: nat, from: nat) {
    forall b: nat, s: nat :: KvModel.Valid(blocks, (b, s)) && SlotBefore((b, s), (n, from)) ==>
      blocks[b][s].key in index && !SlotBefore(index[blocks[b][s].key], (b, s))
  }

  lemma {:induction false} IndexRowsUpToDate(index: Index, blocks: seq<Block>, n: nat, from: nat)
    requires n < |blocks| && from <= |blocks[n]| && UpToDate(index, blocks, n, from)
    ensures UpToDate(IndexRows(index, n, blocks[n], from), blocks, n + 1, 0)
    decreases |blocks[n]| - from
  {
    if from < |blocks[n]| {
      IndexRowsUpToDate(index[blocks[n][from].key := (n, from)], blocks, n, from + 1);
    }
  }

  lemma {:induction false} IndexBlocksUpToDate(index: Index, blocks: seq<Block>, from: nat)
    requires from <= |blocks| && UpToDate(index, blocks, from, 0)
    ensures UpToDate(IndexBlocks(index, blocks, from), blocks, |blocks|, 0)
    decreases |blocks| - from
  {
    if from < |blocks| {
      IndexRowsUpToDate(index, blocks, from, 0);
      IndexBlocksUpToDate(IndexRows(index, from, blocks[from], 0), blocks, from + 1);
    }
  }

  /** Every key that has a row is indexed, at its last row in (block, slot) order. */
  lemma LatestIsLast(blocks: seq<Block>, b: nat, s: nat)
    requires KvModel.Valid(blocks, (b, s))
    ensures var k := blocks[b][s].key;
            && k in Latest(blocks)
            && KvModel.Valid(blocks, Latest(blocks)[k]) && At(blocks, Latest(blocks)[k]).key == k
            && !SlotBefore(Latest(blocks)[k], (b, s))
  {
    IndexBlocksUpToDate(map[], blocks, 0);
    LatestReads(blocks);
    assert SlotBefore((b, s), (|blocks|, 0));
  }

  // ---------------------------------------------------------------- chunks

  lemma {:induction false} ChunksFlatten(rows: seq<Row>, usable: nat)
    ensures Flatten(Chunks(rows, usable)) == rows
  {
    if rows != [] {
      var n := ChunkEnd(rows, usable, 0, 0);
      ChunksFlatten(rows[n..], usable);
      assert ([rows[..n]] + Chunks(rows[n..], usable))[1..] == Chunks(rows[n..], usable);
    }
  }

  function TotalBytes(rows: seq<Row>): nat {
    if rows == [] then 0 else TotalBytes(rows[..|rows| - 1]) + RowBytes(rows[|rows| - 1])
  }

  lemma {:induction false} ChunkEndFits(rows: seq<Row>, usable: nat, i: nat)
    requires i <= |rows| && (i > 1 ==> TotalBytes(rows[..i]) <= usable)
    ensures var n := ChunkEnd(rows, usable, i, TotalBytes(rows[..i]));
            && (n > 1 ==> TotalBytes(rows[..n]) <= usable)
            && (n < |rows| ==> n > 0 && TotalBytes(rows[..n + 1]) > usable)
    decreases |rows| - i
  {
    if i < |rows| {
      assert rows[..i + 1][..i] == rows[..i];
      if !(TotalBytes(rows[..i]) + RowBytes(rows[i]) > usable && i > 0) {
        ChunkEndFits(rows, usable, i + 1);
      }
    }
  }

  /** Each block a flush builds is nonempty and fits the estimate unless it is a single row, and
      the row after it would not have fitted. */
  lemma {:induction false} ChunksFit(rows: seq<Row>, usable: nat, i: nat)
    requires i < |Chunks(rows, usable)|
    ensures var cs := Chunks(rows, usable);
            && cs[i] != []
            && (|cs[i]| > 1 ==> TotalBytes(cs[i]) <= usable)
            && (i + 1 < |cs| ==> cs[i + 1] != [] && TotalBytes(cs[i] + [cs[i + 1][0]]) > usable)
    decreases rows
  {
    var n := ChunkEnd(rows, usable, 0, 0);
    var rest := Chunks(rows[n..], usable);
    if i == 0 {
      assert rows[..0] == [];
      ChunkEndFits(rows, usable, 0);
      if n < |rows| {
        assert rest[0] == rows[n..][..ChunkEnd(rows[n..], usable, 0, 0)];
        assert rows[..n] + [rows[n]] == rows[..n + 1];
      }
    } else {
      ChunksFit(rows[n..], usable, i - 1);
    }
  }

  lemma {:induction false} LayoutFlatten(rows: seq<Row>, usable: nat)
    ensures Flatten(Layout(rows, usable)) == rows
  {
    if rows != [] {
      var g := Group(rows);
      LayoutFlatten(rows[g..], usable);
      ChunksFlatten(rows[..g], usable);
      FlattenConcat(Chunks(rows[..g], usable), Layout(rows[g..], usable));
    }
  }

  // ---------------------------------------------------------------- sorting

  /** A strictly sorted listing of a map is unique. */
  lemma {:induction false} SortedListingUnique(a: seq<Row>, b: seq<Row>, m: map<Key, Value>)
    requires StrictlySorted(a) && StrictlySorted(b) && Lists(a, m) && Lists(b, m)
    ensures a == b
    decreases a
  {
    if a == [] {
      EmptyListing(a, m);
      EmptyListing(b, m);
    } else {
      assert a[0] in a;
      assert Row(a[0].key, m[a[0].key]) in b;
      assert b[0] in b;
      assert Row(b[0].key, m[b[0].key]) in a;
      FirstIsLeast(a, b[0]);
      FirstIsLeast(b, a[0]);
      if a[0] != b[0] {
        LessTransitive(a[0].key, b[0].key, a[0].key);
        LessIrreflexive(a[0].key);
        assert false;
      }
      TailLists(a, m);
      TailLists(b, m);
      SortedListingUnique(a[1..], b[1..], m - {a[0].key});
      assert a == [a[0]] + a[1..] && b == [b[0]] + b[1..];
    }
  }

  lemma EmptyListing(rows: seq<Row>, m: map<Key, Value>)
    requires Lists(rows, m)
    ensures rows == [] <==> m == map[]
  {
    if rows != [] {
      assert rows[0] in rows;
    } else {
      assert m.Keys == {};
    }
  }

  lemma FirstIsLeast(rows: seq<Row>, r: Row)
    requires StrictlySorted(rows) && r in rows
    ensures r == rows[0] || Less(rows[0].key, r.key)
  {
  }

  lemma TailLists(rows: seq<Row>, m: map<Key, Value>)
    requires rows != [] && StrictlySorted(rows) && Lists(rows, m)
    ensures StrictlySorted(rows[1..]) && Lists(rows[1..], m - {rows[0].key})
  {
    var rest, m' := rows[1..], m - {rows[0].key};
    forall r | r in rest ensures r.key in m' && m'[r.key] == r.value {
      var i :| 0 <= i < |rest| && rest[i] == r;
      assert rows[i + 1] == r && Less(rows[0].key, r.key);
      LessIrreflexive(r.key);
    }
    forall k | k in m' ensures Row(k, m'[k]) in rest {
      assert Row(k, m[k]) in rows;
      var i :| 0 <= i < |rows| && rows[i] == Row(k, m[k]);
      assert i > 0 && rest[i - 1] == rows[i];
    }
  }

  // ---------------------------------------------------------------- content

  lemma PutContent(blocks: seq<Block>, pending: map<Key, Value>, k: Key, v: Value)
    ensures Content(blocks, pending[k := v]) ==
            if v == [] then Content(blocks, pending) - {k} else Content(blocks, pending)[k := v]
  {
  }

  lemma DeleteContent(blocks: seq<Block>, pending: map<Key, Value>, k: Key)
    ensures Content(blocks, pending - {k}) - {k} == Content(blocks, pending) - {k}
  {
  }

  function Retain(order: seq<Key>, k: Key): (r: seq<Key>)
    ensures forall x :: x in r <==> x in order && x != k
    ensures k !in order ==> r == order
  {
    if order == [] then []
    else if order[0] != k then [order[0]] + Retain(order[1..], k)
    else Retain(order[1..], k)
  }

  lemma {:induction false} RetainDistinct(order: seq<Key>, k: Key)
    requires NoDuplicates(order)
    ensures NoDuplicates(Retain(order, k))
  {
    if order != [] {
      RetainDistinct(order[1..], k);
      assert forall i :: 0 < i < |order| ==> order[i] != order[0];
      assert order[0] !in order[1..];
    }
  }

  lemma OrderAfterRemove(pending: map<Key, Value>, order: seq<Key>, k: Key)
    requires OrderOk(pending, order)
    ensures OrderOk(pending - {k}, Retain(order, k))
  {
    DistinctPairs(order);
    RetainDistinct(order, k);
    PairsDistinct(Retain(order, k));
  }

  lemma OrderAfterPut(pending: map<Key, Value>, order: seq<Key>, k: Key, v: Value)
    requires OrderOk(pending, order)
    ensures OrderOk(pending[k := v], if k in pending then order else order + [k])
  {
    if k !in pending {
      DistinctAppend(order, k);
    }
  }

  lemma AgreeAfterPut(index: Index, latest: Index, pending: map<Key, Value>, k: Key, v: Value)
    requires AgreeOutside(index, latest, pending.Keys + {k})
    ensures AgreeOutside(index, latest, pending[k := v].Keys)
  {
    assert pending[k := v].Keys == pending.Keys + {k};
  }

  lemma AgreeAfterRemove(index: Index, latest: Index, pending: map<Key, Value>, k: Key)
    requires AgreeOutside(index, latest, pending.Keys)
    ensures AgreeOutside(index - {k}, latest, (pending - {k}).Keys + {k})
    ensures k !in index && k !in pending ==> k !in latest && index - {k} == index && pending - {k} == pending
  {
    assert (pending - {k}).Keys + {k} == pending.Keys + {k};
  }

  /** Taking a key out of index and buffer, before its tombstone is put. */
  lemma KeyRemoved(blocks: seq<Block>, index: Index, pending: map<Key, Value>, order: seq<Key>, k: Key)
    requires OrderOk(pending, order) && AgreeOutside(index, Latest(blocks), pending.Keys)
    ensures OrderOk(pending - {k}, Retain(order, k))
    ensures AgreeOutside(index - {k}, Latest(blocks), (pending - {k}).Keys + {k})
    ensures Content(blocks, pending - {k}) - {k} == Content(blocks, pending) - {k}
    ensures k !in pending ==> Retain(order, k) == order
    ensures k !in index && k !in pending ==>
              k !in Content(blocks, pending) && pending - {k} == pending && index - {k} == index
  {
    OrderAfterRemove(pending, order, k);
    AgreeAfterRemove(index, Latest(blocks), pending, k);
    DeleteContent(blocks, pending, k);
    LatestReads(blocks);
  }

  lemma PendingKeys(pending: map<Key, Value>, order: seq<Key>)
    requires OrderOk(pending, order)
    ensures KeysFrom(PendingRows(pending, order), 0) == pending.Keys
  {
    var rows := PendingRows(pending, order);
    forall k | k in pending ensures k in KeysFrom(rows, 0) {
      var i :| 0 <= i < |order| && order[i] == k;
      assert rows[i].key == k;
    }
  }

  lemma AgreeEverywhere(a: Index, b: Index)
    requires AgreeOutside(a, b, {})
    ensures a == b
  {
  }

  lemma AgreeWeaken(a: Index, b: Index, small: set<Key>, big: set<Key>)
    requires AgreeOutside(a, b, small) && small <= big
    ensures AgreeOutside(a, b, big)
  {
  }

  /** Flushing a prefix of the pending rows leaves the content alone. */
  lemma FlushContent(blocks: seq<Block>, done: seq<Block>, rows: seq<Row>, idx: nat,
                     pending: map<Key, Value>, order: seq<Key>)
    requires OrderOk(pending, order) && rows == PendingRows(pending, order) && idx <= |rows|
    requires Flatten(done) == rows[..idx]
    ensures Content(blocks + done, pending) == Content(blocks, pending)
    ensures Flatten(blocks + done) == Flatten(blocks) + rows[..idx]
    ensures KeysFrom(rows, idx) <= pending.Keys
  {
    FlattenConcat(blocks, done);
    ReplayConcat(map[], Flatten(blocks), rows[..idx]);
    ReplayShadowed(Replay(map[], Flatten(blocks)), rows[..idx], pending);
  }

  /** Once all of them are flushed the buffer can go. */
  lemma FlushedContent(blocks: seq<Block>, before: seq<Block>, pending: map<Key, Value>, order: seq<Key>)
    requires OrderOk(pending, order)
    requires Flatten(blocks) == Flatten(before) + PendingRows(pending, order)
    ensures Content(blocks, map[]) == Content(before, pending)
    ensures KeysFrom(PendingRows(pending, order), |order|) == {}
  {
    ReplayConcat(map[], Flatten(before), PendingRows(pending, order));
    ReplayPending(Replay(map[], Flatten(before)), pending, order);
    var m := Replay(map[], Flatten(before)) + pending;
    assert m + map[] == m;
  }

  lemma ChunkKeys(rows: seq<Row>, start: nat, end: nat)
    requires start <= end <= |rows|
    requires forall i, j :: 0 <= i < j < |rows| ==> rows[i].key != rows[j].key
    ensures KeysFrom(rows, start) - KeysFrom(rows[start..end], 0) == KeysFrom(rows, end)
  {
    var block := rows[start..end];
    forall i | start <= i < end ensures rows[i].key in KeysFrom(block, 0) {
      assert block[i - start].key == rows[i].key;
    }
    forall k | k in KeysFrom(rows, end) ensures k in KeysFrom(rows, start) && k !in KeysFrom(block, 0) {
      var i :| end <= i < |rows| && rows[i].key == k;
    }
  }

  // ---------------------------------------------------------------- a flush under way

  /** `ordered[..idx]` is sealed into `done`; the rest is still to be chunked and indexed. */
  ghost predicate Flushing(start: seq<Block>, done: seq<Block>, index: Index, ordered: seq<Row>, idx: nat, usable: nat) {
    && idx <= |ordered|
    && done + Chunks(ordered[idx..], usable) == Chunks(ordered, usable)
    && Flatten(done) == ordered[..idx]
    && AgreeOutside(index, Latest(start + done), KeysFrom(ordered, idx))
  }

  lemma FlushBegins(start: seq<Block>, index: Index, pending: map<Key, Value>, order: seq<Key>, usable: nat)
    requires OrderOk(pending, order) && AgreeOutside(index, Latest(start), pending.Keys)
    ensures Flushing(start, [], index, PendingRows(pending, order), 0, usable)
  {
    var ordered := PendingRows(pending, order);
    assert ordered[0..] == ordered && start + [] == start;
    PendingKeys(pending, order);
  }

  lemma FlushAdvances(start: seq<Block>, done: seq<Block>, index: Index, pending: map<Key, Value>, order: seq<Key>,
                      ordered: seq<Row>, idx: nat, next: nat, usable: nat)
    requires OrderOk(pending, order) && ordered == PendingRows(pending, order)
    requires Flushing(start, done, index, ordered, idx, usable) && idx < |ordered|
    requires next == idx + ChunkEnd(ordered[idx..], usable, 0, 0)
    ensures var block := ordered[idx..next];
            && block in Chunks(ordered, usable)
            && Flushing(start, done + [block], IndexRows(index, |start + done|, block, 0), ordered, next, usable)
  {
    var block, blocks := ordered[idx..next], start + done;
    ChunkDone(done, ordered, idx, next, usable);
    LatestAppend(blocks, block);
    assert start + (done + [block]) == blocks + [block];
    IndexRowsAgree(index, Latest(blocks), |blocks|, block, 0, KeysFrom(ordered, idx));
    DistinctPairs(order);
    ChunkKeys(ordered, idx, next);
  }

  /** The next chunk is one of the chunks, and the others go on behind it. */
  lemma ChunkDone(done: seq<Block>, ordered: seq<Row>, idx: nat, next: nat, usable: nat)
    requires idx < |ordered| && next == idx + ChunkEnd(ordered[idx..], usable, 0, 0)
    requires done + Chunks(ordered[idx..], usable) == Chunks(ordered, usable) && Flatten(done) == ordered[..idx]
    ensures var block := ordered[idx..next];
            && block in Chunks(ordered, usable)
            && done + [block] + Chunks(ordered[next..], usable) == Chunks(ordered, usable)
            && Flatten(done + [block]) == ordered[..next]
  {
    var block, rows := ordered[idx..next], ordered[idx..];
    assert block == rows[..next - idx] && ordered[next..] == rows[next - idx..];
    assert done + ([block] + Chunks(ordered[next..], usable)) == done + [block] + Chunks(ordered[next..], usable);
    FlattenConcat(done, [block]);
    assert Flatten([block]) == block by { assert [block][1..] == []; }
    assert ordered[..next] == ordered[..idx] + block;
  }

  ghost predicate FlushingSome(start: seq<Block>, done: seq<Block>, index: Index, ordered: seq<Row>, usable: nat) {
    exists idx: nat :: Flushing(start, done, index, ordered, idx, usable)
  }

  lemma FlushDone(start: seq<Block>, done: seq<Block>, index: Index, ordered: seq<Row>, usable: nat)
    requires Flushing(start, done, index, ordered, |ordered|, usable)
    ensures done == Chunks(ordered, usable)
  {
    assert ordered[|ordered|..] == [];
  }

  lemma FlushStops(start: seq<Block>, done: seq<Block>, index: Index, ordered: seq<Row>, usable: nat,
                   pending: map<Key, Value>, order: seq<Key>)
    requires OrderOk(pending, order) && ordered == PendingRows(pending, order)
    requires FlushingSome(start, done, index, ordered, usable)
    ensures AgreeOutside(index, Latest(start + done), pending.Keys)
    ensures Content(start + done, pending) == Content(start, pending)
  {
    var idx: nat :| Flushing(start, done, index, ordered, idx, usable);
    FlushContent(start, done, ordered, idx, pending, order);
    AgreeWeaken(index, Latest(start + done), KeysFrom(ordered, idx), pending.Keys);
  }

  lemma FlushEnds(start: seq<Block>, done: seq<Block>, index: Index, ordered: seq<Row>, usable: nat,
                  pending: map<Key, Value>, order: seq<Key>)
    requires OrderOk(pending, order) && ordered == PendingRows(pending, order)
    requires Flushing(start, done, index, ordered, |ordered|, usable)
    ensures done == Chunks(ordered, usable)
    ensures AgreeOutside(index, Latest(start + done), {})
    ensures Content(start + done, map[]) == Content(start, pending)
  {
    FlushDone(start, done, index, ordered, usable);
    assert ordered[..|ordered|] == ordered;
    FlushContent(start, done, ordered, |ordered|, pending, order);
    FlushedContent(start + done, start, pending, order);
  }

  lemma EmptyPending(pending: map<Key, Value>, order: seq<Key>)
    requires OrderOk(pending, order)
    ensures pending == map[] ==> order == [] && PendingRows(pending, order) == []
  {
    if order != [] {
      assert order[0] in order;
    }
  }

  // ---------------------------------------------------------------- rewriting the survivors

  predicate DistinctKeys(rows: seq<Row>) {
    forall i, j :: 0 <= i < j < |rows| ==> rows[i].key != rows[j].key
  }

  function InsertByKey(row: Row, rows: seq<Row>): seq<Row> {
    if rows == [] then [row]
    else if Less(row.key, rows[0].key) then [row] + rows
    else [rows[0]] + InsertByKey(row, rows[1..])
  }

  /** `sort_by` on the keys. */
  function SortedByKey(rows: seq<Row>): seq<Row> {
    if rows == [] then [] else InsertByKey(rows[0], SortedByKey(rows[1..]))
  }

  lemma {:induction false} InsertByKeySorts(row: Row, rows: seq<Row>)
    requires StrictlySorted(rows) && forall r :: r in rows ==> r.key != row.key
    ensures StrictlySorted(InsertByKey(row, rows))
    ensures forall r :: r in InsertByKey(row, rows) <==> r == row || r in rows
  {
    if rows != [] {
      assert rows[0] in rows;
      var out := InsertByKey(row, rows);
      if Less(row.key, rows[0].key) {
        forall j | 0 < j < |out| ensures Less(row.key, out[j].key) {
          assert out[j] == rows[j - 1];
          if j > 1 {
            LessTransitive(row.key, rows[0].key, rows[j - 1].key);
          }
        }
      } else {
        LessTotal(row.key, rows[0].key);
        InsertByKeySorts(row, rows[1..]);
        var tail := InsertByKey(row, rows[1..]);
        forall j | 0 < j < |out| ensures Less(rows[0].key, out[j].key) {
          assert out[j] == tail[j - 1] && tail[j - 1] in tail;
          if tail[j - 1] != row {
            var i :| 0 <= i < |rows[1..]| && rows[1..][i] == tail[j - 1];
          }
        }
      }
    }
  }

  lemma {:induction false} SortedByKeySorts(rows: seq<Row>)
    requires DistinctKeys(rows)
    ensures StrictlySorted(SortedByKey(rows)) && forall r :: r in SortedByKey(rows) <==> r in rows
  {
    if rows != [] {
      SortedByKeySorts(rows[1..]);
      forall r | r in rows[1..] ensures r.key != rows[0].key {
        var i :| 0 <= i < |rows[1..]| && rows[1..][i] == r;
      }
      InsertByKeySorts(rows[0], SortedByKey(rows[1..]));
      assert rows == [rows[0]] + rows[1..];
    }
  }

  lemma {:induction false} ListingSize(rows: seq<Row>, m: map<Key, Value>)
    requires StrictlySorted(rows) && Lists(rows, m)
    ensures |rows| == |m|
    decreases rows
  {
    EmptyListing(rows, m);
    if rows != [] {
      assert rows[0] in rows;
      TailLists(rows, m);
      ListingSize(rows[1..], m - {rows[0].key});
      assert (m - {rows[0].key}).Keys == m.Keys - {rows[0].key};
    }
  }
}
