/** Laying live rows out in blocks, as compaction does: which blocks result, when the builder takes
    them all, and which rows are back when it does not. */
module KvLayout {
  import opened Lex
  import opened KvModel
  import opened KvProofs

  // ---------------------------------------------------------------- groups of puts

  lemma {:induction false} LayoutSplit(a: seq<Row>, b: seq<Row>, usable: nat)
    requires |a| % PENDING_CAPACITY == 0
    ensures Layout(a + b, usable) == Layout(a, usable) + Layout(b, usable)
    decreases |a|
  {
    if a == [] {
      assert a + b == b;
    } else {
      assert |a| >= PENDING_CAPACITY;
      assert (a + b)[..PENDING_CAPACITY] == a[..PENDING_CAPACITY];
      assert (a + b)[PENDING_CAPACITY..] == a[PENDING_CAPACITY..] + b;
      FewerGroups(|a|);
      LayoutSplit(a[PENDING_CAPACITY..], b, usable);
    }
  }

  lemma FewerGroups(n: nat)
    requires n % PENDING_CAPACITY == 0 && n >= PENDING_CAPACITY
    ensures (n - PENDING_CAPACITY) % PENDING_CAPACITY == 0
  {
  }

  lemma LayoutGroup(rows: seq<Row>, usable: nat)
    requires |rows| == PENDING_CAPACITY
    ensures Layout(rows, usable) == Chunks(rows, usable)
  {
    assert rows[..PENDING_CAPACITY] == rows && rows[PENDING_CAPACITY..] == [];
    assert Chunks(rows, usable) + [] == Chunks(rows, usable);
  }

  /** How many of `n` rows come before the last group. */
  function LastGroup(n: nat): (m: nat)
    ensures m <= n && m % PENDING_CAPACITY == 0
  {
    if n == 0 then 0
    else
      EarlierMultiple(n - 1);
      n - 1 - (n - 1) % PENDING_CAPACITY
  }

  lemma EarlierMultiple(n: nat)
    ensures (n - n % PENDING_CAPACITY) % PENDING_CAPACITY == 0
  {
  }

  /** Rows `[..i]` have been put back: whole groups sealed, the others pending. */
  ghost predicate Rewriting(blocks: seq<Block>, pendingRows: seq<Row>, rows: seq<Row>, i: nat, usable: nat) {
    && |pendingRows| <= i <= |rows| && pendingRows == rows[i - |pendingRows|..i]
    && (i - |pendingRows|) % PENDING_CAPACITY == 0
    && blocks == Layout(rows[..i - |pendingRows|], usable)
  }

  lemma RewriteBegins(blocks: seq<Block>, index: Index, pending: map<Key, Value>, order: seq<Key>, rows: seq<Row>, usable: nat)
    requires blocks == [] && index == map[] && pending == map[] && order == []
    ensures OrderOk(pending, order) && AgreeOutside(index, Latest(blocks), pending.Keys)
    ensures Rewriting(blocks, PendingRows(pending, order), rows, 0, usable)
    ensures PutBack(Content(blocks, pending), rows, 0)
  {
    assert PendingRows(pending, order) == [] && rows[..0] == [];
  }

  lemma {:induction false} OrderSize(pending: map<Key, Value>, order: seq<Key>)
    requires OrderOk(pending, order)
    ensures |pending| == |order|
    decreases order
  {
    if order == [] {
      assert pending.Keys == {};
    } else {
      var n := |order| - 1;
      assert order == order[..n] + [order[n]];
      OrderSize(pending - {order[n]}, order[..n]);
      assert (pending - {order[n]}).Keys == pending.Keys - {order[n]};
    }
  }

  lemma LayoutPartial(rows: seq<Row>, usable: nat)
    requires |rows| < PENDING_CAPACITY
    ensures Layout(rows, usable) == Chunks(rows, usable)
  {
    assert rows[..|rows|] == rows && rows[|rows|..] == [];
    assert Chunks(rows, usable) + [] == Chunks(rows, usable);
  }

  lemma NewPendingRow(pending: map<Key, Value>, order: seq<Key>, rows: seq<Row>, i: nat)
    requires OrderOk(pending, order) && StrictlySorted(rows) && i < |rows| && |order| <= i
    requires PendingRows(pending, order) == rows[i - |order|..i]
    ensures var p, o := pending[rows[i].key := rows[i].value], order + [rows[i].key];
            && rows[i].key !in pending && OrderOk(p, o) && |p| == |o|
            && PendingRows(p, o) == rows[i - |order|..i + 1]
  {
    var row := rows[i];
    KeyIsNew(pending, order, rows, i);
    OrderAfterPut(pending, order, row.key, row.value);
    OrderSize(pending[row.key := row.value], order + [row.key]);
    PendingRowsAppend(pending, order, row);
    assert rows[i - |order|..i] + [row] == rows[i - |order|..i + 1];
  }

  lemma KeyIsNew(pending: map<Key, Value>, order: seq<Key>, rows: seq<Row>, i: nat)
    requires OrderOk(pending, order) && StrictlySorted(rows) && i < |rows| && |order| <= i
    requires PendingRows(pending, order) == rows[i - |order|..i]
    ensures rows[i].key !in pending
  {
    var before := PendingRows(pending, order);
    LessIrreflexive(rows[i].key);
    forall j | 0 <= j < |order| ensures order[j] != rows[i].key {
      assert before[j] == rows[i - |order| + j];
    }
  }

  lemma PendingRowsAppend(pending: map<Key, Value>, order: seq<Key>, row: Row)
    requires OrderOk(pending, order) && row.key !in pending
    ensures PendingRows(pending[row.key := row.value], order + [row.key]) == PendingRows(pending, order) + [row]
  {
  }

  lemma LayoutShift(blocks: seq<Block>, now: seq<Row>, rows: seq<Row>, i: nat, usable: nat)
    requires i < |rows| && 0 < |now| <= i + 1 && now == rows[i + 1 - |now|..i + 1]
    requires Rewriting(blocks, now[..|now| - 1], rows, i, usable)
    ensures Rewriting(blocks, now, rows, i + 1, usable)
  {
    assert i + 1 - |now| == i - |now[..|now| - 1]|;
  }

  lemma LayoutFlush(blocks: seq<Block>, now: seq<Row>, rows: seq<Row>, i: nat, usable: nat)
    requires |now| == PENDING_CAPACITY && Rewriting(blocks, now, rows, i, usable)
    ensures Rewriting(blocks + Chunks(now, usable), [], rows, i, usable)
  {
    var m := i - |now|;
    assert rows[..i] == rows[..m] + now;
    LayoutSplit(rows[..m], now, usable);
    LayoutGroup(now, usable);
    assert i % PENDING_CAPACITY == 0 by { NextMultiple(m); }
  }

  lemma NextMultiple(m: nat)
    requires m % PENDING_CAPACITY == 0
    ensures (m + PENDING_CAPACITY) % PENDING_CAPACITY == 0
  {
  }

  /** One more put, with or without the flush it triggers, stays on the way to the full layout. */
  lemma RewriteStep(blocks: seq<Block>, pending: map<Key, Value>, order: seq<Key>, rows: seq<Row>, i: nat, usable: nat)
    requires OrderOk(pending, order) && StrictlySorted(rows) && i < |rows| && |order| < PENDING_CAPACITY
    requires Rewriting(blocks, PendingRows(pending, order), rows, i, usable)
    ensures var p, o := pending[rows[i].key := rows[i].value], order + [rows[i].key];
            && rows[i].key !in pending && OrderOk(p, o) && |p| == |o|
            && Rewriting(blocks, PendingRows(p, o), rows, i + 1, usable)
            && (|p| >= PENDING_CAPACITY ==> Rewriting(blocks + Chunks(PendingRows(p, o), usable), [], rows, i + 1, usable))
  {
    NewPendingRow(pending, order, rows, i);
    var now := PendingRows(pending[rows[i].key := rows[i].value], order + [rows[i].key]);
    assert now[..|now| - 1] == PendingRows(pending, order);
    LayoutShift(blocks, now, rows, i, usable);
    if |now| >= PENDING_CAPACITY {
      LayoutFlush(blocks, now, rows, i + 1, usable);
    }
  }

  /** What a put leaves behind, given the buffer `p`, `o` it would have without flushing. */
  ghost predicate PutOutcome(ok: bool, start: seq<Block>, p: map<Key, Value>, o: seq<Key>,
                             blocks: seq<Block>, pending: map<Key, Value>, order: seq<Key>, usable: nat)
  {
    && OrderOk(p, o)
    && (|p| < PENDING_CAPACITY ==> ok && pending == p && order == o && blocks == start)
    && (|p| >= PENDING_CAPACITY && ok ==>
          pending == map[] && order == [] && blocks == start + Chunks(PendingRows(p, o), usable))
    && (|p| >= PENDING_CAPACITY && !ok ==> pending == p && order == o)
  }

  lemma PutRewrites(start: seq<Block>, p: map<Key, Value>, o: seq<Key>, blocks: seq<Block>, pending: map<Key, Value>,
                    order: seq<Key>, rows: seq<Row>, i: nat, usable: nat)
    requires PutOutcome(true, start, p, o, blocks, pending, order, usable) && |p| == |o|
    requires OrderOk(pending, order)
    requires Rewriting(start, PendingRows(p, o), rows, i, usable)
    requires |p| >= PENDING_CAPACITY ==> Rewriting(start + Chunks(PendingRows(p, o), usable), [], rows, i, usable)
    ensures |order| < PENDING_CAPACITY && Rewriting(blocks, PendingRows(pending, order), rows, i, usable)
  {
    assert PendingRows(map[], []) == [];
  }

  /** Putting the next row, whether or not that flushes, goes on with the rewriting. */
  lemma RowRewrites(start: seq<Block>, was: map<Key, Value>, wasOrder: seq<Key>, blocks: seq<Block>,
                    pending: map<Key, Value>, order: seq<Key>, rows: seq<Row>, i: nat, usable: nat)
    requires OrderOk(was, wasOrder) && StrictlySorted(rows) && i < |rows| && |wasOrder| < PENDING_CAPACITY
    requires Rewriting(start, PendingRows(was, wasOrder), rows, i, usable) && OrderOk(pending, order)
    requires PutOutcome(true, start, was[rows[i].key := rows[i].value],
                        if rows[i].key in was then wasOrder else wasOrder + [rows[i].key], blocks, pending, order, usable)
    ensures |order| < PENDING_CAPACITY && Rewriting(blocks, PendingRows(pending, order), rows, i + 1, usable)
  {
    var p, o := was[rows[i].key := rows[i].value], wasOrder + [rows[i].key];
    RewriteStep(start, was, wasOrder, rows, i, usable);
    PutRewrites(start, p, o, blocks, pending, order, rows, i + 1, usable);
  }

  /** `m` holds the first `i` rows and nothing else. */
  ghost predicate PutBack(m: map<Key, Value>, rows: seq<Row>, i: nat) {
    i <= |rows| && Lists(rows[..i], m)
  }

  lemma PutBackStep(m: map<Key, Value>, rows: seq<Row>, i: nat)
    requires i < |rows| && StrictlySorted(rows) && PutBack(m, rows, i)
    ensures PutBack(m[rows[i].key := rows[i].value], rows, i + 1)
  {
    var next := m[rows[i].key := rows[i].value];
    assert rows[..i + 1] == rows[..i] + [rows[i]];
    forall r | r in rows[..i] ensures r.key != rows[i].key {
      LessIrreflexive(r.key);
    }
    forall k | k in next ensures Row(k, next[k]) in rows[..i + 1] {
      if k != rows[i].key {
        assert Row(k, m[k]) in rows[..i];
      }
    }
  }

  lemma PutBackAll(m: map<Key, Value>, rows: seq<Row>, view: map<Key, Value>)
    requires Lists(rows, view) && PutBack(m, rows, |rows|)
    ensures m == view
  {
    assert rows[..|rows|] == rows;
  }

  /** As long as a row has not been put back, it is missing. */
  lemma PutBackSome(m: map<Key, Value>, rows: seq<Row>, i: nat, view: map<Key, Value>)
    requires Lists(rows, view) && StrictlySorted(rows) && i <= |rows| && PutBack(m, rows, i)
    ensures forall k :: k in m ==> k in view && m[k] == view[k]
    ensures m == view <==> i == |rows|
  {
    forall k | k in m ensures k in view && m[k] == view[k] {
      assert Row(k, m[k]) in rows[..i];
    }
    if i < |rows| {
      assert rows[i] in rows;
      if rows[i].key in m {
        var j :| 0 <= j < i && rows[j] == Row(rows[i].key, m[rows[i].key]);
        LessIrreflexive(rows[i].key);
      }
    } else {
      PutBackAll(m, rows, view);
    }
  }

  lemma RewriteEnd(blocks: seq<Block>, pendingRows: seq<Row>, rows: seq<Row>, usable: nat)
    requires Rewriting(blocks, pendingRows, rows, |rows|, usable) && |pendingRows| < PENDING_CAPACITY
    ensures blocks + Chunks(pendingRows, usable) == Layout(rows, usable)
  {
    var m := |rows| - |pendingRows|;
    assert rows == rows[..m] + pendingRows;
    LayoutSplit(rows[..m], pendingRows, usable);
    LayoutPartial(pendingRows, usable);
  }

  // ---------------------------------------------------------------- the listing of a map

  /** The keys of `rows[i..]` ascend. */
  predicate Ascending(rows: seq<Row>, i: nat)
    decreases |rows| - i
  {
    i + 1 < |rows| ==> Less(rows[i].key, rows[i + 1].key) && Ascending(rows, i + 1)
  }

  lemma {:induction false} AscendingLess(rows: seq<Row>, i: nat, j: nat, k: nat)
    requires Ascending(rows, i) && i <= j < k < |rows|
    ensures Less(rows[j].key, rows[k].key)
    decreases |rows| - i, k
  {
    if i < j {
      AscendingLess(rows, i + 1, j, k);
    } else if i + 1 < k {
      AscendingLess(rows, i + 1, i + 1, k);
      LessTransitive(rows[i].key, rows[i + 1].key, rows[k].key);
    }
  }

  lemma {:induction false} SortedAscends(rows: seq<Row>, i: nat)
    requires StrictlySorted(rows)
    ensures Ascending(rows, i)
    decreases |rows| - i
  {
    if i + 1 < |rows| {
      SortedAscends(rows, i + 1);
    }
  }

  lemma AscendingIsSorted(rows: seq<Row>)
    ensures Ascending(rows, 0) <==> StrictlySorted(rows)
  {
    if Ascending(rows, 0) {
      forall j, k | 0 <= j < k < |rows| ensures Less(rows[j].key, rows[k].key) {
        AscendingLess(rows, 0, j, k);
      }
    } else if StrictlySorted(rows) {
      SortedAscends(rows, 0);
    }
  }

  ghost predicate IsListing(rows: seq<Row>, m: map<Key, Value>) {
    Ascending(rows, 0) && Lists(rows, m)
  }

  /** The entries of `m` in key order. */
  ghost function Listing(m: map<Key, Value>): seq<Row> {
    ListingExists(m);
    var rows :| IsListing(rows, m);
    rows
  }

  lemma {:induction false} ListingExists(m: map<Key, Value>)
    ensures exists rows :: IsListing(rows, m)
    decreases |m|
  {
    if m == map[] {
      assert IsListing([], m);
    } else {
      var k :| k in m;
      assert (m - {k}).Keys == m.Keys - {k};
      ListingExists(m - {k});
      var rows :| IsListing(rows, m - {k});
      var out := InsertByKey(Row(k, m[k]), rows);
      AscendingIsSorted(rows);
      ListingGrows(rows, m, k);
      AscendingIsSorted(out);
      assert IsListing(out, m);
    }
  }

  lemma ListingGrows(rows: seq<Row>, m: map<Key, Value>, k: Key)
    requires k in m && StrictlySorted(rows) && Lists(rows, m - {k})
    ensures var out := InsertByKey(Row(k, m[k]), rows); StrictlySorted(out) && Lists(out, m)
  {
    forall r | r in rows ensures r.key != k {
      assert r.key in m - {k};
    }
    InsertByKeySorts(Row(k, m[k]), rows);
    var out := InsertByKey(Row(k, m[k]), rows);
    forall j | j in m ensures Row(j, m[j]) in out {
      if j != k {
        assert j in m - {k};
        assert Row(j, (m - {k})[j]) in rows;
      }
    }
  }

  /** A map has one listing only. */
  lemma ListingIs(rows: seq<Row>, m: map<Key, Value>)
    ensures rows == Listing(m) <==> StrictlySorted(rows) && Lists(rows, m)
  {
    ListingExists(m);
    AscendingIsSorted(Listing(m));
    if StrictlySorted(rows) && Lists(rows, m) {
      SortedListingUnique(rows, Listing(m), m);
    }
  }

  /** Rows in key order, none of which is a tombstone. */
  predicate Loadable(rows: seq<Row>) {
    Ascending(rows, 0) && Living(rows, 0)
  }

  /** None of `rows[i..]` is a tombstone. */
  predicate Living(rows: seq<Row>, i: nat)
    decreases |rows| - i
  {
    i < |rows| ==> rows[i].value != [] && Living(rows, i + 1)
  }

  lemma {:induction false} LivingAt(rows: seq<Row>, i: nat, j: nat)
    requires Living(rows, i) && i <= j < |rows|
    ensures rows[j].value != []
    decreases |rows| - i
  {
    if i < j {
      LivingAt(rows, i + 1, j);
    }
  }

  lemma {:induction false} NoTombstone(rows: seq<Row>, i: nat)
    requires forall j :: i <= j < |rows| ==> rows[j].value != []
    ensures Living(rows, i)
    decreases |rows| - i
  {
    if i < |rows| {
      NoTombstone(rows, i + 1);
    }
  }

  lemma ListingIsLoadable(rows: seq<Row>, m: map<Key, Value>)
    requires rows == Listing(m) && forall k :: k in m ==> m[k] != []
    ensures Loadable(rows)
  {
    ListingIs(rows, m);
    AscendingIsSorted(rows);
    forall i | 0 <= i < |rows| ensures rows[i].value != [] {
      assert rows[i] in rows;
    }
    NoTombstone(rows, 0);
  }

  // ---------------------------------------------------------------- which blocks the builder takes

  ghost predicate AllAccepted(accepts: Block -> bool, blocks: seq<Block>) {
    forall b :: b in blocks ==> accepts(b)
  }

  lemma AcceptedConcat(accepts: Block -> bool, a: seq<Block>, b: seq<Block>)
    ensures AllAccepted(accepts, a + b) <==> AllAccepted(accepts, a) && AllAccepted(accepts, b)
  {
    assert forall x :: x in a + b <==> x in a || x in b;
  }

  lemma LastGroupIs(n: nat, m: nat)
    requires m % PENDING_CAPACITY == 0 && m < n <= m + PENDING_CAPACITY
    ensures LastGroup(n) == m
  {
  }

  lemma LastGroupBehind(n: nat, m: nat)
    requires m % PENDING_CAPACITY == 0 && m < n
    ensures m <= LastGroup(n)
  {
  }

  /** Whole groups at the front of a layout are laid out on their own. */
  lemma FrontAccepted(accepts: Block -> bool, rows: seq<Row>, front: nat, more: nat, usable: nat)
    requires front % PENDING_CAPACITY == 0 && front <= more <= |rows|
    ensures AllAccepted(accepts, Layout(rows[..more], usable)) <==>
            AllAccepted(accepts, Layout(rows[..front], usable)) && AllAccepted(accepts, Layout(rows[front..more], usable))
  {
    assert rows[..more] == rows[..front] + rows[front..more];
    LayoutSplit(rows[..front], rows[front..more], usable);
    AcceptedConcat(accepts, Layout(rows[..front], usable), Layout(rows[front..more], usable));
  }

  /** A group that is refused while rows are put back: the layout is refused, and unless it is the
      last group, so are the groups before the last. */
  lemma GroupRefused(accepts: Block -> bool, rows: seq<Row>, m: nat, usable: nat)
    requires m % PENDING_CAPACITY == 0 && m + PENDING_CAPACITY <= |rows|
    requires AllAccepted(accepts, Layout(rows[..m], usable))
    requires !AllAccepted(accepts, Chunks(rows[m..m + PENDING_CAPACITY], usable))
    ensures !AllAccepted(accepts, Layout(rows, usable))
    ensures AllAccepted(accepts, Layout(rows[..LastGroup(|rows|)], usable)) <==> m + PENDING_CAPACITY == |rows|
  {
    var next, n := m + PENDING_CAPACITY, |rows|;
    LayoutGroup(rows[m..next], usable);
    FrontAccepted(accepts, rows, m, next, usable);
    NextMultiple(m);
    FrontAccepted(accepts, rows, next, n, usable);
    assert rows[..n] == rows;
    if next == n {
      LastGroupIs(n, m);
    } else {
      LastGroupBehind(n, next);
      FrontAccepted(accepts, rows, next, LastGroup(n), usable);
    }
  }

  /** Once only the rest is pending, all groups before the last have been taken. */
  lemma RestPending(accepts: Block -> bool, rows: seq<Row>, m: nat, usable: nat)
    requires m % PENDING_CAPACITY == 0 && m <= |rows| < m + PENDING_CAPACITY
    requires AllAccepted(accepts, Layout(rows[..m], usable))
    ensures AllAccepted(accepts, Layout(rows[..LastGroup(|rows|)], usable))
    ensures AllAccepted(accepts, Layout(rows, usable)) <==> AllAccepted(accepts, Chunks(rows[m..], usable))
  {
    var n := |rows|;
    assert rows[..n] == rows && rows[m..n] == rows[m..];
    FrontAccepted(accepts, rows, m, n, usable);
    LayoutPartial(rows[m..], usable);
    if m < n {
      LastGroupIs(n, m);
    } else {
      FrontAccepted(accepts, rows, LastGroup(n), m, usable);
    }
  }

  // ---------------------------------------------------------------- a builder that takes what fits

  /** What the flush loop builds: rows that fit together, or a single row. */
  predicate Snug(b: Block, usable: nat) { b != [] && (|b| > 1 ==> TotalBytes(b) <= usable) }

  ghost predicate WellSealed(accepts: Block -> bool, blocks: seq<Block>, usable: nat) {
    forall b :: b in blocks ==> accepts(b) && Snug(b, usable)
  }

  /** The builder takes every block whose rows fit by the account of the flush loop. */
  ghost predicate TakesWhatFits(accepts: Block -> bool, usable: nat) {
    forall b: Block :: b != [] && TotalBytes(b) <= usable ==> accepts(b)
  }

  lemma ChunksAreSnug(rows: seq<Row>, usable: nat, b: Block)
    requires b in Chunks(rows, usable)
    ensures Snug(b, usable)
  {
    var i: nat :| i < |Chunks(rows, usable)| && Chunks(rows, usable)[i] == b;
    ChunksFit(rows, usable, i);
  }

  lemma {:induction false} LayoutIsSnug(rows: seq<Row>, usable: nat, b: Block)
    requires b in Layout(rows, usable)
    ensures Snug(b, usable) && forall r :: r in b ==> r in rows
    decreases rows
  {
    var g := Group(rows);
    if b in Chunks(rows[..g], usable) {
      ChunksAreSnug(rows[..g], usable, b);
      ChunksFlatten(rows[..g], usable);
      BlockInFlatten(Chunks(rows[..g], usable), b);
    } else {
      LayoutIsSnug(rows[g..], usable, b);
    }
  }

  lemma {:induction false} BlockInFlatten(blocks: seq<Block>, b: Block)
    requires b in blocks
    ensures forall r :: r in b ==> r in Flatten(blocks)
  {
    if b != blocks[0] {
      assert blocks == [blocks[0]] + blocks[1..];
      BlockInFlatten(blocks[1..], b);
    }
  }

  lemma {:induction false} RowInBlock(blocks: seq<Block>, r: Row) returns (b: Block)
    requires r in Flatten(blocks)
    ensures b in blocks && r in b
  {
    if r in blocks[0] {
      b := blocks[0];
    } else {
      b := RowInBlock(blocks[1..], r);
    }
  }

  lemma {:induction false} RowWithinTotal(rows: seq<Row>, r: Row)
    requires r in rows
    ensures RowBytes(r) <= TotalBytes(rows)
  {
    var n := |rows| - 1;
    if r != rows[n] {
      assert rows == rows[..n] + [rows[n]];
      RowWithinTotal(rows[..n], r);
    }
  }

  /** Rows that were sealed before can be sealed again in any layout: a block of several rows fits,
      and a row that fits in no block with others was sealed alone. */
  lemma LayoutAccepted(accepts: Block -> bool, blocks: seq<Block>, rows: seq<Row>, usable: nat)
    requires WellSealed(accepts, blocks, usable) && TakesWhatFits(accepts, usable)
    requires forall r :: r in rows ==> r in Flatten(blocks)
    ensures AllAccepted(accepts, Layout(rows, usable))
  {
    forall b | b in Layout(rows, usable) ensures accepts(b) {
      LayoutIsSnug(rows, usable, b);
      if TotalBytes(b) > usable {
        var r := b[0];
        assert r in b && b == [r];
        assert b[..0] == [] && TotalBytes(b) == RowBytes(r);
        var sealed := RowInBlock(blocks, r);
        RowWithinTotal(sealed, r);
        assert sealed == [r];
      }
    }
  }

  /** A flush, finished or not, adds blocks that were accepted and are snug. */
  lemma FlushSeals(accepts: Block -> bool, start: seq<Block>, done: seq<Block>, index: Index, ordered: seq<Row>, usable: nat)
    requires FlushingSome(start, done, index, ordered, usable) && AllAccepted(accepts, done)
    requires WellSealed(accepts, start, usable)
    ensures WellSealed(accepts, start + done, usable)
  {
    var idx: nat :| Flushing(start, done, index, ordered, idx, usable);
    forall b | b in start + done ensures accepts(b) && Snug(b, usable) {
      if b in done {
        assert b in done + Chunks(ordered[idx..], usable);
        ChunksAreSnug(ordered, usable, b);
      }
    }
  }

  lemma FlushedSize(blocks: seq<Block>, rows: seq<Row>, usable: nat)
    ensures |Flatten(blocks + Chunks(rows, usable))| == |Flatten(blocks)| + |rows|
  {
    FlattenConcat(blocks, Chunks(rows, usable));
    ChunksFlatten(rows, usable);
  }

  function BytesSaved(before: nat, after: nat, size: nat): nat {
    if after > before then 0 else (before - after) * size
  }

  lemma BytesReclaimed(before: nat, after: nat, size: nat)
    ensures (if before * size < after * size then 0 else before * size - after * size) == BytesSaved(before, after, size)
  {
    if after > before {
      assert (after - before) * size >= 0;
      assert after * size == before * size + (after - before) * size;
    } else {
      assert before * size == after * size + (before - after) * size;
      assert (before - after) * size >= 0;
    }
  }

  /** A live row stands in some block. */
  lemma LiveRowsAreSealed(blocks: seq<Block>, rows: seq<Row>)
    requires Lists(rows, Content(blocks, map[]))
    ensures forall r :: r in rows ==> r in Flatten(blocks)
  {
    forall r | r in rows ensures r in Flatten(blocks) {
      var m := Replay(map[], Flatten(blocks));
      assert m + map[] == m;
      ReplayedFrom(map[], Flatten(blocks), r.key);
    }
  }

  lemma {:induction false} ReplayedFrom(base: map<Key, Value>, rows: seq<Row>, k: Key)
    requires k in Replay(base, rows)
    ensures var v := Replay(base, rows)[k]; Row(k, v) in rows || (k in base && base[k] == v)
    decreases rows
  {
    if rows != [] {
      ReplayedFrom(base[rows[0].key := rows[0].value], rows[1..], k);
      assert rows == [rows[0]] + rows[1..];
    }
  }

  /** The put that was refused completed a group; the groups before it had been taken. */
  lemma RefusedGroup(blocks: seq<Block>, pending: map<Key, Value>, order: seq<Key>, rows: seq<Row>, i: nat, usable: nat)
    requires OrderOk(pending, order) && StrictlySorted(rows) && i < |rows| && |order| < PENDING_CAPACITY
    requires Rewriting(blocks, PendingRows(pending, order), rows, i, usable)
    ensures var p, o := pending[rows[i].key := rows[i].value], order + [rows[i].key];
            && rows[i].key !in pending && OrderOk(p, o)
            && (|p| >= PENDING_CAPACITY ==>
                  && i + 1 >= PENDING_CAPACITY && (i + 1) % PENDING_CAPACITY == 0
                  && PendingRows(p, o) == rows[i + 1 - PENDING_CAPACITY..i + 1]
                  && blocks == Layout(rows[..i + 1 - PENDING_CAPACITY], usable))
  {
    RewriteStep(blocks, pending, order, rows, i, usable);
  }

  lemma NothingPending(accepts: Block -> bool, pending: map<Key, Value>, order: seq<Key>, usable: nat)
    requires pending == map[] && order == []
    ensures AllAccepted(accepts, Chunks(PendingRows(pending, order), usable))
  {
    assert PendingRows(pending, order) == [];
  }

  // ---------------------------------------------------------------- what becomes of a map that is laid out

  ghost predicate Within(small: map<Key, Value>, big: map<Key, Value>) {
    forall k :: k in small ==> k in big && small[k] == big[k]
  }

  /** The builder takes all blocks of the layout. */
  ghost predicate LayoutTaken(accepts: Block -> bool, rows: seq<Row>, usable: nat) {
    AllAccepted(accepts, Layout(rows, usable))
  }

  /** The builder takes all groups of the layout before the last one. */
  ghost predicate FrontTaken(accepts: Block -> bool, rows: seq<Row>, usable: nat) {
    AllAccepted(accepts, Layout(rows[..LastGroup(|rows|)], usable))
  }

  /** The put of row `n - 1` completed a group that was refused after all groups before it were taken. */
  ghost predicate StoppedAt(accepts: Block -> bool, rows: seq<Row>, n: nat, usable: nat) {
    && PENDING_CAPACITY <= n <= |rows| && n % PENDING_CAPACITY == 0
    && AllAccepted(accepts, Layout(rows[..n - PENDING_CAPACITY], usable))
    && !AllAccepted(accepts, Chunks(rows[n - PENDING_CAPACITY..n], usable))
  }

  /** After a refusal in the middle the rows behind the group are missing. */
  lemma RewriteRefused(accepts: Block -> bool, m: map<Key, Value>, rows: seq<Row>, n: nat, view: map<Key, Value>, usable: nat)
    requires rows == Listing(view) && PutBack(m, rows, n) && StoppedAt(accepts, rows, n, usable)
    ensures Within(m, view) && !LayoutTaken(accepts, rows, usable)
    ensures m == view <==> FrontTaken(accepts, rows, usable)
  {
    ListingIs(rows, view);
    PutBackSome(m, rows, n, view);
    StoppedFront(accepts, rows, n, usable);
  }

  lemma AllBack(m: map<Key, Value>, rows: seq<Row>, view: map<Key, Value>)
    requires rows == Listing(view) && PutBack(m, rows, |rows|)
    ensures m == view && Within(m, view)
  {
    ListingIs(rows, view);
    PutBackAll(m, rows, view);
  }

  lemma StoppedFront(accepts: Block -> bool, rows: seq<Row>, n: nat, usable: nat)
    requires StoppedAt(accepts, rows, n, usable)
    ensures !LayoutTaken(accepts, rows, usable) && (FrontTaken(accepts, rows, usable) <==> n == |rows|)
  {
    var m := n - PENDING_CAPACITY;
    EarlierGroup(n);
    assert n == m + PENDING_CAPACITY;
    GroupRefused(accepts, rows, m, usable);
  }

  lemma EarlierGroup(n: nat)
    requires n >= PENDING_CAPACITY && n % PENDING_CAPACITY == 0
    ensures (n - PENDING_CAPACITY) % PENDING_CAPACITY == 0
  {
  }

  /** Before the last flush everything is put back; whether it succeeds decides about the layout. */
  lemma RewriteReady(accepts: Block -> bool, blocks: seq<Block>, rest: seq<Row>, rows: seq<Row>, usable: nat)
    requires |rest| < PENDING_CAPACITY && Rewriting(blocks, rest, rows, |rows|, usable) && AllAccepted(accepts, blocks)
    ensures FrontTaken(accepts, rows, usable)
    ensures LayoutTaken(accepts, rows, usable) <==> AllAccepted(accepts, Chunks(rest, usable))
    ensures blocks + Chunks(rest, usable) == Layout(rows, usable)
  {
    var m := |rows| - |rest|;
    RewriteEnd(blocks, rest, rows, usable);
    assert rest == rows[m..] && rows[..m] == rows[..|rows| - |rest|];
    RestPending(accepts, rows, m, usable);
  }

  /** Live rows can always be laid out again if the builder takes what fits. */
  lemma LiveTaken(accepts: Block -> bool, blocks: seq<Block>, rows: seq<Row>, usable: nat)
    requires WellSealed(accepts, blocks, usable) && TakesWhatFits(accepts, usable) && Lists(rows, Content(blocks, map[]))
    ensures LayoutTaken(accepts, rows, usable)
  {
    LiveRowsAreSealed(blocks, rows);
    LayoutAccepted(accepts, blocks, rows, usable);
  }

  // ---------------------------------------------------------------- a layout that cannot be rebuilt

  lemma {:induction false} PrefixBytes(rows: seq<Row>, n: nat)
    requires n <= |rows|
    ensures TotalBytes(rows[..n]) <= TotalBytes(rows)
    decreases |rows|
  {
    if n == |rows| {
      assert rows[..n] == rows;
    } else {
      var front := rows[..|rows| - 1];
      assert front[..n] == rows[..n];
      PrefixBytes(front, n);
    }
  }

  lemma {:induction false} SuffixBytes(rows: seq<Row>, n: nat)
    requires n <= |rows|
    ensures TotalBytes(rows[n..]) <= TotalBytes(rows)
    decreases |rows|
  {
    if n < |rows| {
      var last := |rows| - 1;
      assert rows[n..][..last - n] == rows[..last][n..];
      SuffixBytes(rows[..last], n);
    }
  }

  lemma {:induction false} WholeChunk(rows: seq<Row>, usable: nat, i: nat)
    requires i <= |rows| && TotalBytes(rows) <= usable
    ensures ChunkEnd(rows, usable, i, TotalBytes(rows[..i])) == |rows|
    decreases |rows| - i
  {
    if i < |rows| {
      assert rows[..i + 1][..i] == rows[..i];
      PrefixBytes(rows, i + 1);
      WholeChunk(rows, usable, i + 1);
    }
  }

  /** Rows that fit together are one chunk. */
  lemma OneChunk(rows: seq<Row>, usable: nat)
    requires rows != [] && TotalBytes(rows) <= usable
    ensures Chunks(rows, usable) == [rows]
  {
    assert rows[..0] == [];
    WholeChunk(rows, usable, 0);
    assert rows[..|rows|] == rows && rows[|rows|..] == [];
    assert Chunks(rows, usable) == [rows[..|rows|]] + Chunks(rows[|rows|..], usable);
  }

  /** A builder with room for fewer than a full buffer of rows takes rows in two flushes that it
      refuses when compaction puts them back in one. */
  lemma TakenApartOnly(accepts: Block -> bool, rows: seq<Row>, half: nat, usable: nat)
    requires 0 < half < PENDING_CAPACITY < |rows| < half + PENDING_CAPACITY && TotalBytes(rows) <= usable
    requires forall b: Block :: accepts(b) <==> |b| < PENDING_CAPACITY
    ensures AllAccepted(accepts, Chunks(rows[..half], usable)) && AllAccepted(accepts, Chunks(rows[half..], usable))
    ensures !LayoutTaken(accepts, rows, usable) && !FrontTaken(accepts, rows, usable)
  {
    PrefixBytes(rows, half);
    SuffixBytes(rows, half);
    OneChunk(rows[..half], usable);
    OneChunk(rows[half..], usable);
    var group := rows[0..0 + PENDING_CAPACITY];
    assert group == rows[..PENDING_CAPACITY] && rows[..0] == [];
    PrefixBytes(rows, PENDING_CAPACITY);
    OneChunk(group, usable);
    assert group in Chunks(group, usable) && !accepts(group);
    GroupRefused(accepts, rows, 0, usable);
  }
}
