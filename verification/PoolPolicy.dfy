/** Which pages the pool keeps, told from the uses of pages alone: the pool refines a cache of pages
    that gives up the page with the oldest last-but-one use, pages used once first. */
module PoolPolicy {
  import opened Wrappers
  import opened LruModel
  import LruRuns
  import opened PoolModel
  import opened PoolProofs

  /** A cache of at most `size` pages, with all counted uses of each page since it was loaded, newest
      first; a use happens at its number among all counted uses. */
  datatype Cache = Cache(size: nat, clock: nat, uses: map<PageId, seq<nat>>)

  function Used(c: Cache, page: PageId): Cache {
    var now := c.clock + 1;
    c.(clock := now, uses := c.uses[page := [now] + if page in c.uses then c.uses[page] else []])
  }

  /** The page to give up: a page used once rather than one used more often, and otherwise the one
      with the older use, the last but one when there are more. */
  ghost predicate Goes(c: Cache, page: PageId)
    requires Regular(c)
  {
    page in c.uses && forall other :: other in c.uses && other != page ==> LruRuns.Sooner(2, c.uses[page], c.uses[other])
  }

  /** Room has been made: nothing to do while the cache is not full, otherwise one page is given up. */
  ghost predicate MakesRoom(c: Cache, d: Cache)
    requires Regular(c)
  {
    if |c.uses| < c.size then d == c else exists page :: Goes(c, page) && d == c.(uses := c.uses - {page})
  }

  /** One use of the pool: a cached page has its use counted unless it is scanned, or is refused to be
      made anew; any other page takes the place of one given up. */
  ghost predicate Follows(c: Cache, op: Op, d: Cache)
    requires Regular(c)
  {
    if op.Flush? || (op.page in c.uses && (op.New? || op.hint.Scan?)) then d == c
    else if op.page in c.uses then d == Used(c, op.page)
    else exists room :: MakesRoom(c, room) && d == Used(room, op.page)
  }

  ghost predicate Regular(c: Cache) {
    && (forall page :: page in c.uses ==> c.uses[page] != [])
    && (forall page, t :: page in c.uses && t in c.uses[page] ==> t <= c.clock)
    && (forall a, b, t :: a in c.uses && b in c.uses && t in c.uses[a] && t in c.uses[b] ==> a == b)
  }

  // ---------------------------------------------------------------- the pool as such a cache

  ghost predicate MirrorsAt(p: Pool, c: Cache, page: PageId) {
    && (page in p.table <==> page in c.uses)
    && (page in p.table ==> p.table[page] in p.lru.history &&
                            p.lru.history[p.table[page]] == LruRuns.First(2, c.uses[page]))
  }

  /** The pool holds the pages of the cache, with their last two uses. */
  ghost predicate Mirrors(p: Pool, c: Cache) {
    && |p.frames| == c.size && p.lru.clock == c.clock && p.lru.k == 2
    && forall page: PageId :: MirrorsAt(p, c, page)
  }

  /** Nothing the cache tells of differs. */
  ghost predicate Alike(p: Pool, q: Pool) {
    && |q.frames| == |p.frames| && q.table == p.table && q.lru.history == p.lru.history
    && q.lru.clock == p.lru.clock && q.lru.k == p.lru.k
  }

  lemma AlikeMirrors(p: Pool, q: Pool, c: Cache)
    requires Mirrors(p, c) && Alike(p, q)
    ensures Mirrors(q, c)
  {
    forall page: PageId ensures MirrorsAt(q, c, page) {
      assert MirrorsAt(p, c, page);
    }
  }

  // ---------------------------------------------------------------- counting

  lemma SubsetSize<T>(a: set<T>, b: set<T>)
    requires a <= b
    ensures |a| <= |b|
    ensures |a| == |b| ==> a == b
  {
    if a != b {
      var x :| x in b && x !in a;
      SubsetSize(a, b - {x});
    }
  }

  function Numbers(n: nat): (r: set<nat>)
    ensures |r| == n && forall f: nat :: f in r <==> f < n
  {
    if n == 0 then {} else Numbers(n - 1) + {n - 1}
  }

  lemma {:induction false} InjectiveSize(table: map<PageId, FrameId>)
    requires forall a, b :: a in table && b in table && table[a] == table[b] ==> a == b
    ensures |table.Values| == |table|
  {
    if |table| > 0 {
      var page :| page in table;
      var rest := table - {page};
      InjectiveSize(rest);
      forall f | f in table.Values ensures f in rest.Values + {table[page]} {
        var other :| other in table && table[other] == f;
        assert other != page ==> other in rest && rest[other] == f;
      }
      assert table.Values == rest.Values + {table[page]};
      assert table.Keys == rest.Keys + {page};
    }
  }

  /** The table is as large as the pool exactly when no frame is free. */
  lemma FullExact(p: Pool)
    requires Inv(p)
    ensures |p.table| < |p.frames| <==> p.free != []
  {
    var all := Numbers(|p.frames|);
    InjectiveSize(p.table);
    assert p.table.Values <= all;
    SubsetSize(p.table.Values, all);
    if p.free == [] {
      forall f | f in all ensures f in p.table.Values {
        assert FrameOk(p, None, f);
      }
      assert p.table.Values == all;
    } else {
      var f := p.free[0];
      assert f in p.free && f in all;
      assert FrameOk(p, None, f);
      assert f !in p.table.Values;
    }
  }

  // ---------------------------------------------------------------- making room

  lemma HistoryTimes(p: Pool, c: Cache, page: PageId)
    requires Inv(p) && Mirrors(p, c) && Regular(c) && page in p.table
    ensures var f := p.table[page];
            && page in c.uses && Candidate(p.lru, f, LruRuns.Proven(2, c.uses[page]))
            && Oldest(p.lru, f) == LruRuns.Kth(2, c.uses[page]) && LruRuns.Kth(2, c.uses[page]) in c.uses[page]
  {
    assert MirrorsAt(p, c, page);
  }

  lemma VictimGoes(p: Pool, c: Cache)
    requires Inv(p) && Unpinned(p) && Mirrors(p, c) && Regular(c) && p.free == []
    ensures Victim(p.lru).Some? && Holds(p, Victim(p.lru).value)
    ensures Goes(c, p.frames[Victim(p.lru).value].page.value)
  {
    VictimExists(p);
    var f := Victim(p.lru).value;
    var page := p.frames[f].page.value;
    assert FrameOk(p, None, f);
    assert MirrorsAt(p, c, page);
    HistoryTimes(p, c, page);
    forall other | other in c.uses && other != page ensures LruRuns.Sooner(2, c.uses[page], c.uses[other]) {
      assert MirrorsAt(p, c, other);
      HistoryTimes(p, c, other);
      var g := p.table[other];
      assert FrameOk(p, None, g);
      assert g in p.lru.evictable && Candidate(p.lru, g, LruRuns.Proven(2, c.uses[other]));
    }
  }

  lemma RoomMade(p: Pool, c: Cache) returns (room: Cache)
    requires Inv(p) && Unpinned(p) && Mirrors(p, c) && Regular(c)
    ensures MakesRoom(c, room) && Regular(room)
    ensures var (r, q) := EvictOrTakeFree(p);
            && r.Ok? && Mirrors(q, room) && r.value !in q.lru.history
            && Sound(q, Some(r.value)) && Unpinned(q) && q.table.Keys <= p.table.Keys
  {
    var (r, q) := EvictOrTakeFree(p);
    EvictWorks(p);
    FullExact(p);
    SameSize(p, c);
    assert FrameOk(q, Some(r.value), r.value);
    if p.free != [] {
      room := c;
      AlikeMirrors(p, q, c);
    } else {
      VictimGoes(p, c);
      VictimGivenUp(p);
      var page := p.frames[r.value].page.value;
      room := c.(uses := c.uses - {page});
      assert Goes(c, page);
      forall other: PageId ensures MirrorsAt(q, room, other) {
        assert MirrorsAt(p, c, other);
        assert FrameOk(p, None, r.value);
      }
    }
  }

  lemma SameSize(p: Pool, c: Cache)
    requires Mirrors(p, c)
    ensures |p.table| == |c.uses|
  {
    forall page: PageId ensures page in p.table.Keys <==> page in c.uses.Keys {
      assert MirrorsAt(p, c, page);
    }
    assert p.table.Keys == c.uses.Keys;
  }

  // ---------------------------------------------------------------- steps

  lemma UsedRegular(c: Cache, page: PageId)
    requires Regular(c)
    ensures Regular(Used(c, page))
  {
  }

  /** A counted use of a cached page. */
  lemma HitMirrors(p: Pool, c: Cache, page: PageId)
    requires Inv(p) && Mirrors(p, c) && page in p.table
    ensures Mirrors(p.(lru := Recorded(p.lru, p.table[page])), Used(c, page))
  {
    var f, now := p.table[page], c.clock + 1;
    assert MirrorsAt(p, c, page);
    LruRuns.RecordedFirst(2, now, c.uses[page]);
    forall other: PageId ensures MirrorsAt(p.(lru := Recorded(p.lru, f)), Used(c, page), other) {
      assert MirrorsAt(p, c, other);
      assert other in p.table && other != page ==> p.table[other] != f;
    }
  }

  /** The first use of a page that has just been loaded. */
  lemma LoadMirrors(p: Pool, c: Cache, f: FrameId, page: PageId, data: Data, dirty: bool)
    requires Sound(p, Some(f)) && Mirrors(p, c) && page !in p.table && f !in p.lru.history
    ensures Mirrors(Occupied(p, f, page, data, dirty), Used(c, page))
  {
    assert MirrorsAt(p, c, page);
    forall other: PageId ensures MirrorsAt(Occupied(p, f, page, data, dirty), Used(c, page), other) {
      assert MirrorsAt(p, c, other);
      assert other in p.table ==> p.table[other] != f;
    }
  }

  lemma PinMirrors(p: Pool, c: Cache, page: PageId, hint: ReadHint) returns (d: Cache)
    requires Inv(p) && Unpinned(p) && Mirrors(p, c) && Regular(c)
    ensures Regular(d) && Follows(c, Read(page, hint), d)
    ensures Mirrors(PinPage(p, page, hint).1, d)
  {
    assert MirrorsAt(p, c, page);
    var (r, q) := PinPage(p, page, hint);
    if page in p.table {
      if hint.Scan? {
        d := c;
        AlikeMirrors(p, q, c);
      } else {
        d := Used(c, page);
        UsedRegular(c, page);
        HitMirrors(p, c, page);
        AlikeMirrors(p.(lru := Recorded(p.lru, p.table[page])), q, d);
      }
    } else {
      var room := RoomMade(p, c);
      var (v, emptied) := EvictOrTakeFree(p);
      d := Used(room, page);
      UsedRegular(room, page);
      LoadMirrors(emptied, room, v.value, page, Stored(emptied, page), false);
      AlikeMirrors(Occupied(emptied, v.value, page, Stored(emptied, page), false), q, d);
    }
  }

  lemma NewMirrors(p: Pool, c: Cache, page: PageId) returns (d: Cache)
    requires Inv(p) && Unpinned(p) && Mirrors(p, c) && Regular(c)
    ensures Regular(d) && Follows(c, New(page), d)
    ensures Mirrors(NewPage(p, page).1, d)
  {
    assert MirrorsAt(p, c, page);
    if page in p.table {
      d := c;
    } else {
      var room := RoomMade(p, c);
      var (v, emptied) := EvictOrTakeFree(p);
      d := Used(room, page);
      UsedRegular(room, page);
      LoadMirrors(emptied, room, v.value, page, Zeros(emptied.pageSize), true);
    }
  }

  lemma ReadFollows(p: Pool, c: Cache, page: PageId, hint: ReadHint) returns (d: Cache)
    requires Inv(p) && Unpinned(p) && Mirrors(p, c) && Regular(c)
    ensures Regular(d) && Follows(c, Read(page, hint), d) && Mirrors(Step(p, Read(page, hint)).1, d)
  {
    PinWorks(p, page, hint);
    d := PinMirrors(p, c, page, hint);
    AlikeMirrors(PinPage(p, page, hint).1, Step(p, Read(page, hint)).1, d);
  }

  /** Which bytes a use leaves is nothing to the policy. */
  lemma WriteIsRead(p: Pool, page: PageId, hint: ReadHint, data: Data)
    requires Inv(p) && Unpinned(p)
    ensures Alike(Step(p, Read(page, hint)).1, Step(p, Write(page, hint, data)).1)
  {
    PinWorks(p, page, hint);
  }

  lemma NewFollows(p: Pool, c: Cache, page: PageId) returns (d: Cache)
    requires Inv(p) && Unpinned(p) && Mirrors(p, c) && Regular(c)
    ensures Regular(d) && Follows(c, New(page), d) && Mirrors(Step(p, New(page)).1, d)
  {
    NewPageWorks(p, page);
    d := NewMirrors(p, c, page);
    AlikeMirrors(NewPage(p, page).1, Step(p, New(page)).1, d);
  }

  lemma StepFollows(p: Pool, c: Cache, op: Op) returns (d: Cache)
    requires Inv(p) && Unpinned(p) && Mirrors(p, c) && Regular(c)
    ensures Regular(d) && Follows(c, op, d) && Mirrors(Step(p, op).1, d)
  {
    match op
    case Read(page, hint) =>
      d := ReadFollows(p, c, page, hint);
    case Write(page, hint, data) =>
      d := ReadFollows(p, c, page, hint);
      WriteIsRead(p, page, hint, data);
      AlikeMirrors(Step(p, Read(page, hint)).1, Step(p, op).1, d);
    case New(page) =>
      d := NewFollows(p, c, page);
    case Flush(page) =>
      d := c;
      AlikeMirrors(p, Step(p, op).1, d);
  }

  // ---------------------------------------------------------------- the cache is determined

  lemma OneGoes(c: Cache, a: PageId, b: PageId)
    requires Regular(c) && Goes(c, a) && Goes(c, b)
    ensures a == b
  {
  }

  /** Each operation leaves only one cache. */
  lemma FollowsOnce(c: Cache, op: Op, d: Cache, e: Cache)
    requires Regular(c) && Follows(c, op, d) && Follows(c, op, e)
    ensures d == e
  {
    if !(op.Flush? || op.page in c.uses) && |c.uses| >= c.size {
      var room :| MakesRoom(c, room) && d == Used(room, op.page);
      var more :| MakesRoom(c, more) && e == Used(more, op.page);
      var a :| Goes(c, a) && room == c.(uses := c.uses - {a});
      var b :| Goes(c, b) && more == c.(uses := c.uses - {b});
      OneGoes(c, a, b);
    }
  }

  // ---------------------------------------------------------------- whole runs

  ghost predicate FollowsAll(cs: seq<Cache>, ops: seq<Op>) {
    && |cs| == |ops| + 1 && (forall i :: 0 <= i < |cs| ==> Regular(cs[i]))
    && forall i :: 0 <= i < |ops| ==> Follows(cs[i], ops[i], cs[i + 1])
  }

  ghost predicate Leads(p: Pool, ops: seq<Op>, cs: seq<Cache>)
    requires Inv(p) && Unpinned(p)
  {
    FollowsAll(cs, ops) && Mirrors(p, cs[0]) && Mirrors(Run(p, ops).1, cs[|ops|])
  }

  /** Over any run the pool holds the pages that the cache of pages holds. */
  lemma {:induction false} RunFollows(p: Pool, c: Cache, ops: seq<Op>) returns (cs: seq<Cache>)
    requires Inv(p) && Unpinned(p) && Mirrors(p, c) && Regular(c)
    ensures Leads(p, ops, cs) && cs[0] == c
    decreases |ops|
  {
    if ops == [] {
      cs := [c];
    } else {
      StepTransparent(p, page => Content(p, page), ops[0]);
      var d := StepFollows(p, c, ops[0]);
      var rest := RunFollows(Step(p, ops[0]).1, d, ops[1..]);
      cs := [c] + rest;
      LeadsOn(p, c, ops, rest);
    }
  }

  lemma LeadsOn(p: Pool, c: Cache, ops: seq<Op>, rest: seq<Cache>)
    requires Inv(p) && Unpinned(p) && Mirrors(p, c) && Regular(c) && ops != []
    requires Inv(Step(p, ops[0]).1) && Unpinned(Step(p, ops[0]).1) && Leads(Step(p, ops[0]).1, ops[1..], rest)
    requires Follows(c, ops[0], rest[0])
    ensures Leads(p, ops, [c] + rest)
  {
    Consed(c, rest, ops);
  }

  lemma Consed(c: Cache, rest: seq<Cache>, ops: seq<Op>)
    requires ops != [] && Regular(c) && FollowsAll(rest, ops[1..]) && Follows(c, ops[0], rest[0])
    ensures FollowsAll([c] + rest, ops)
  {
    var cs := [c] + rest;
    forall i | 0 <= i < |cs| ensures Regular(cs[i]) {
      assert i > 0 ==> Regular(rest[i - 1]);
    }
    forall i | 0 <= i < |ops| ensures Follows(cs[i], ops[i], cs[i + 1]) {
      if i > 0 {
        FollowsInside(rest, ops, i);
      }
    }
  }

  lemma FollowsInside(rest: seq<Cache>, ops: seq<Op>, i: nat)
    requires 0 < i < |ops| && FollowsAll(rest, ops[1..])
    ensures Regular(rest[i - 1]) && Follows(rest[i - 1], ops[i], rest[i])
  {
    assert Follows(rest[i - 1], ops[1..][i - 1], rest[i - 1 + 1]);
  }

  /** A new pool is an empty cache. */
  lemma NewPoolMirrors(pageSize: nat, count: nat, source: map<PageId, Data>)
    ensures Mirrors(NewPool(pageSize, count, source), Cache(count, 0, map[])) && Regular(Cache(count, 0, map[]))
  {
  }
}
