/** How a compaction can lose rows: a builder with room for fewer rows than the buffer holds. */
module KvLoss {
  import opened Bytes
  import opened Lex
  import opened KvModel
  import opened KvProofs
  import opened KvLayout
  import opened KvStoreCode

  lemma {:induction false} ReplayedRows(rows: seq<Row>, i: nat)
    requires Loadable(rows) && i <= |rows|
    ensures PutBack(Live(Replay(map[], rows[..i])), rows, i)
    decreases i
  {
    if i > 0 {
      ReplayedRows(rows, i - 1);
      ReplayedRow(Replay(map[], rows[..i - 1]), rows, i - 1);
      assert rows[..i] == rows[..i - 1] + [rows[i - 1]];
      ReplayConcat(map[], rows[..i - 1], [rows[i - 1]]);
    }
  }

  lemma ReplayedRow(m: map<Key, Value>, rows: seq<Row>, i: nat)
    requires Loadable(rows) && i < |rows| && PutBack(Live(m), rows, i)
    ensures PutBack(Live(Replay(m, [rows[i]])), rows, i + 1)
  {
    AscendingIsSorted(rows);
    LivingAt(rows, 0, i);
    PutBackStep(Live(m), rows, i);
    LiveUpdated(m, rows[i]);
  }

  lemma LiveUpdated(m: map<Key, Value>, row: Row)
    requires row.value != []
    ensures Live(Replay(m, [row])) == Live(m)[row.key := row.value]
  {
    assert Replay(m, [row]) == m[row.key := row.value];
  }

  lemma FlattenTwo(a: Block, b: Block)
    ensures Flatten([a, b]) == a + b
  {
    assert [a, b][1..] == [b] && [b][1..] == [];
    assert Flatten([b]) == b + [];
  }

  lemma BlocksHoldRows(rows: seq<Row>, half: nat)
    requires Loadable(rows) && half <= |rows|
    ensures Listing(Content([rows[..half], rows[half..]], map[])) == rows
  {
    FlattenTwo(rows[..half], rows[half..]);
    assert rows[..half] + rows[half..] == rows;
    ReplayedRows(rows, |rows|);
    assert rows[..|rows|] == rows && Replay(map[], rows) + map[] == Replay(map[], rows);
    AscendingIsSorted(rows);
    ListingIs(rows, Live(Replay(map[], rows)));
  }

  /** Each half is one chunk, which the builder takes. */
  lemma HalvesAreSealed(rows: seq<Row>, half: nat, usable: nat, accepts: Block -> bool)
    requires 0 < half < PENDING_CAPACITY < |rows| < half + PENDING_CAPACITY && TotalBytes(rows) <= usable
    requires forall b: Block :: accepts(b) <==> |b| < PENDING_CAPACITY
    ensures var blocks := [rows[..half], rows[half..]];
            WellSealed(accepts, blocks, usable) && blocks == Chunks(rows[..half], usable) + Chunks(rows[half..], usable)
  {
    PrefixBytes(rows, half);
    SuffixBytes(rows, half);
    OneChunk(rows[..half], usable);
    OneChunk(rows[half..], usable);
  }

  /** A store whose rows stand in two blocks, as two flushes of `rows[..half]` and `rows[half..]` seal them. */
  method StoreOfTwoFlushes(rows: seq<Row>, half: nat, blockSize: nat, accepts: Block -> bool) returns (store: KvStore)
    requires Loadable(rows) && 0 < half < PENDING_CAPACITY < |rows| < half + PENDING_CAPACITY
    requires TotalBytes(rows) <= Usable(blockSize) && forall b: Block :: accepts(b) <==> |b| < PENDING_CAPACITY
    ensures fresh(store) && store.Valid() && store.Sealed() && store.accepts == accepts && store.blockSize == blockSize
    ensures store.blocks == Chunks(rows[..half], Usable(blockSize)) + Chunks(rows[half..], Usable(blockSize))
    ensures store.pending == map[] && store.pendingOrder == [] && Listing(store.View()) == rows
  {
    store := KvStore.LoadFromSegment([rows[..half], rows[half..]], blockSize, accepts);
    HalvesAreSealed(rows, half, Usable(blockSize), accepts);
    BlocksHoldRows(rows, half);
  }

  /** All rows are there; the compaction then fails, and some of them are gone. */
  method CompactLoses(rows: seq<Row>, half: nat, blockSize: nat, accepts: Block -> bool)
    returns (store: KvStore, ghost before: map<Key, Value>, compacted: bool)
    requires Loadable(rows) && 0 < half < PENDING_CAPACITY < |rows| < half + PENDING_CAPACITY
    requires TotalBytes(rows) <= Usable(blockSize) && forall b: Block :: accepts(b) <==> |b| < PENDING_CAPACITY
    ensures fresh(store) && store.Valid()
    ensures Listing(before) == rows && !compacted && exists k :: k in before && k !in store.View()
  {
    store := StoreOfTwoFlushes(rows, half, blockSize, accepts);
    before := store.View();
    NothingPending(accepts, store.pending, store.pendingOrder, Usable(blockSize));
    TakenApartOnly(accepts, rows, half, Usable(blockSize));
    var stats;
    compacted, stats := store.Compact();
    SmallerLacks(store.View(), before);
  }

  lemma SmallerLacks(small: map<Key, Value>, big: map<Key, Value>)
    requires Within(small, big) && small != big
    ensures exists k :: k in big && k !in small
  {
    assert (forall k :: k in big ==> k in small) ==> small == big;
  }

  // ---------------------------------------------------------------- such rows exist

  /** `n` rows with two-byte keys in ascending order. */
  function Numbered(n: nat): (rows: seq<Row>)
    requires n <= 65536
    ensures |rows| == n
  {
    seq(n, i requires 0 <= i < n => Row([(i / 256) as Byte, (i % 256) as Byte], [1]))
  }

  lemma NumberedIsLoadable(n: nat)
    requires n <= 65536
    ensures Loadable(Numbered(n))
  {
    var rows := Numbered(n);
    forall i, j | 0 <= i < j < n ensures Less(rows[i].key, rows[j].key) {
      assert i / 256 <= j / 256 && (i / 256 == j / 256 ==> i % 256 < j % 256);
      assert rows[i].key[1..] == [(i % 256) as Byte] && rows[j].key[1..] == [(j % 256) as Byte];
    }
    AscendingIsSorted(rows);
    NoTombstone(rows, 0);
  }

  lemma {:induction false} NumberedBytes(n: nat)
    requires n <= 65536
    ensures TotalBytes(Numbered(n)) == 43 * n
  {
    if n > 0 {
      var rows := Numbered(n);
      assert rows[..n - 1] == Numbered(n - 1);
      NumberedBytes(n - 1);
    }
  }

  /** 1025 small rows in blocks of 64 KiB. */
  method LossOfOneRow() returns (store: KvStore, ghost before: map<Key, Value>, compacted: bool)
    ensures fresh(store) && store.Valid() && Listing(before) == Numbered(1025)
    ensures !compacted && exists k :: k in before && k !in store.View()
  {
    NumberedIsLoadable(1025);
    NumberedBytes(1025);
    store, before, compacted := CompactLoses(Numbered(1025), 600, 65536, b => |b| < PENDING_CAPACITY);
  }
}
