/** The pool is transparent, never stuck, and resists scans. */
module PoolProofs {
  import opened Wrappers
  import opened Bytes
  import opened LruModel
  import opened PoolModel

  lemma NewPoolIsSound(pageSize: nat, count: nat, source: map<PageId, Data>)
    requires count > 0
    ensures Inv(NewPool(pageSize, count, source)) && Unpinned(NewPool(pageSize, count, source))
    ensures forall page: PageId :: Content(NewPool(pageSize, count, source), page) ==
                                   if page in source then source[page] else Zeros(pageSize)
  {
    var p := NewPool(pageSize, count, source);
    forall f: FrameId | f < |p.frames| ensures FrameOk(p, None, f) {
      assert p.free[f] == f;
    }
  }

  // ---------------------------------------------------------------- changes to one frame

  /** Only frame `f` differs, and it still holds the same page; the policy tracks the same frames. */
  ghost predicate SamePages(p: Pool, q: Pool, f: FrameId) {
    && Holds(p, f) && |q.frames| == |p.frames| && q.frames == p.frames[f := q.frames[f]]
    && q.frames[f].page == p.frames[f].page
    && q.table == p.table && q.free == p.free && q.pageSize == p.pageSize && q.lru.k == p.lru.k
    && q.lru.history.Keys == p.lru.history.Keys
    && (forall g: FrameId :: g in p.lru.history && g != f ==> q.lru.history[g] == p.lru.history[g])
    && (q.lru.evictable == p.lru.evictable || q.lru.evictable == p.lru.evictable + [f])
    && (forall page: PageId :: Some(page) != p.frames[f].page ==> Stored(q, page) == Stored(p, page))
  }

  /** What `f` itself must still meet. */
  ghost predicate FrameKept(q: Pool, f: FrameId) {
    && Holds(q, f) && f in q.lru.history && 0 < |q.lru.history[f]| <= 2
    && (q.frames[f].pins == 0 ==> f in q.lru.evictable)
    && (!q.frames[f].dirty ==> q.frames[f].data == Stored(q, q.frames[f].page.value))
  }

  lemma SamePagesFrame(p: Pool, q: Pool, f: FrameId, g: FrameId)
    requires f < |p.frames| && g < |p.frames| && FrameOk(p, None, f) && FrameOk(p, None, g)
    requires SamePages(p, q, f) && FrameKept(q, f)
    ensures FrameOk(q, None, g)
  {
  }

  lemma SamePagesLinked(p: Pool, q: Pool, f: FrameId)
    requires Linked(p) && SamePages(p, q, f)
    ensures Linked(q)
  {
  }

  lemma SamePagesContent(p: Pool, q: Pool, f: FrameId, page: PageId)
    requires Inv(p) && SamePages(p, q, f) && TableOk(q)
    ensures Content(q, page) == if Some(page) == p.frames[f].page then q.frames[f].data else Content(p, page)
  {
    assert FrameOk(p, None, f);
  }

  /** A change inside one cached frame keeps the pool sound and the other pages' contents. */
  lemma SamePagesWorks(p: Pool, q: Pool, f: FrameId)
    requires Inv(p) && SamePages(p, q, f) && FrameKept(q, f)
    ensures Inv(q)
    ensures forall page: PageId ::
              Content(q, page) == if Some(page) == p.frames[f].page then q.frames[f].data else Content(p, page)
  {
    SamePagesLinked(p, q, f);
    forall g: FrameId | g < |q.frames| ensures FrameOk(q, None, g) {
      SamePagesFrame(p, q, f, g);
    }
    forall page: PageId
      ensures Content(q, page) == if Some(page) == p.frames[f].page then q.frames[f].data else Content(p, page)
    {
      SamePagesContent(p, q, f, page);
    }
  }

  lemma SameData(p: Pool, q: Pool, f: FrameId)
    requires Inv(p) && SamePages(p, q, f) && FrameKept(q, f) && q.frames[f].data == p.frames[f].data
    ensures Inv(q) && SameContent(p, q)
  {
    SamePagesWorks(p, q, f);
    assert FrameOk(p, None, f);
  }

  // ---------------------------------------------------------------- taking a frame

  /** With no guard alive and no free frame there is always a victim. */
  lemma VictimExists(p: Pool)
    requires Inv(p) && Unpinned(p) && p.free == []
    ensures Victim(p.lru).Some? && Holds(p, Victim(p.lru).value)
  {
    assert FrameOk(p, None, 0);
    assert Candidate(p.lru, 0, |p.lru.history[0]| >= 2);
    assert FrameOk(p, None, Victim(p.lru).value);
  }

  lemma TakeFree(p: Pool)
    requires Inv(p) && p.free != []
    ensures var f := p.free[|p.free| - 1];
            var q := p.(free := p.free[..|p.free| - 1]);
            Sound(q, Some(f)) && SameContent(p, q)
  {
    var n := |p.free| - 1;
    var f, q := p.free[n], p.(free := p.free[..n]);
    assert f in p.free;
    assert FrameOk(p, None, f);
    assert p.free == q.free + [f];
    forall g: FrameId | g < |q.frames| ensures FrameOk(q, Some(f), g) {
      assert FrameOk(p, None, g);
      TakenLast(p.free, g);
    }
    assert forall g: FrameId :: g in q.free ==> g in p.free;
  }

  lemma TakenLast(fs: seq<FrameId>, g: FrameId)
    requires fs != [] && NoRepeats(fs)
    ensures g in fs[..|fs| - 1] <==> g in fs && g != fs[|fs| - 1]
  {
    assert fs == fs[..|fs| - 1] + [fs[|fs| - 1]];
  }

  /** The frame has been given up and its page written back if it was dirty. */
  ghost predicate GivenUp(p: Pool, f: FrameId, q: Pool) {
    Holds(p, f) && f in p.lru.evictable &&
    var page := p.frames[f].page.value;
    && q.pageSize == p.pageSize && q.frames == p.frames[f := Frame(p.frames[f].data, None, 0, false)]
    && q.table == p.table - {page} && q.free == p.free
    && q.source == (if p.frames[f].dirty then p.source[page := p.frames[f].data] else p.source)
    && q.lru == Forgotten(Taken(p.lru, f), f)
  }

  lemma GivenUpFrame(p: Pool, f: FrameId, q: Pool, g: FrameId)
    requires f < |p.frames| && g < |p.frames| && FrameOk(p, None, f) && FrameOk(p, None, g)
    requires GivenUp(p, f, q)
    ensures FrameOk(q, Some(f), g)
  {
  }

  lemma GivenUpLinked(p: Pool, f: FrameId, q: Pool)
    requires Linked(p) && GivenUp(p, f, q) && FrameOk(p, None, f)
    ensures Linked(q)
  {
  }

  lemma GivenUpContent(p: Pool, f: FrameId, q: Pool, page: PageId)
    requires Inv(p) && GivenUp(p, f, q) && TableOk(q)
    ensures Content(q, page) == Content(p, page)
  {
    assert FrameOk(p, None, f);
  }

  lemma GivenUpWorks(p: Pool, f: FrameId, q: Pool)
    requires Inv(p) && GivenUp(p, f, q)
    ensures Sound(q, Some(f)) && SameContent(p, q)
  {
    assert FrameOk(p, None, f);
    GivenUpLinked(p, f, q);
    forall g: FrameId | g < |q.frames| ensures FrameOk(q, Some(f), g) {
      GivenUpFrame(p, f, q, g);
    }
    forall page: PageId ensures Content(q, page) == Content(p, page) {
      GivenUpContent(p, f, q, page);
    }
  }

  lemma VictimGivenUp(p: Pool)
    requires Inv(p) && Unpinned(p) && p.free == []
    ensures Victim(p.lru).Some?
    ensures var f := Victim(p.lru).value;
            var (r, q) := EvictOrTakeFree(p);
            r == Ok(f) && GivenUp(p, f, q)
  {
    VictimExists(p);
  }

  /** Taking a frame always works when no guard is alive, and changes no page's content. */
  lemma EvictWorks(p: Pool)
    requires Inv(p) && Unpinned(p)
    ensures var (r, q) := EvictOrTakeFree(p);
            && r.Ok? && Sound(q, Some(r.value)) && Unpinned(q) && SameContent(p, q)
            && q.table.Keys <= p.table.Keys && q.pageSize == p.pageSize
  {
    var (r, q) := EvictOrTakeFree(p);
    if p.free != [] {
      TakeFree(p);
    } else {
      VictimGivenUp(p);
      GivenUpWorks(p, r.value, q);
    }
  }

  // ---------------------------------------------------------------- filling a frame

  lemma RecordedAt(l: Lru, f: FrameId)
    requires l.k == 2
    ensures var m := Recorded(l, f);
            && m.k == 2 && m.evictable == l.evictable && m.history.Keys == l.history.Keys + {f}
            && (forall g: FrameId :: g in l.history && g != f ==> m.history[g] == l.history[g])
            && 0 < |m.history[f]|
            && (f !in l.history ==> |m.history[f]| == 1)
            && (f in l.history && |l.history[f]| <= 2 ==> |m.history[f]| <= 2)
  {
  }

  /** An empty frame `f` has been filled with `page` and pinned. */
  ghost predicate Filled(p: Pool, f: FrameId, page: PageId, frame: Frame, q: Pool) {
    && f < |p.frames| && page !in p.table && frame.page == Some(page) && frame.pins == 1
    && q.pageSize == p.pageSize && q.frames == p.frames[f := frame] && q.table == p.table[page := f]
    && q.free == p.free && q.source == p.source && q.lru.k == p.lru.k && q.lru.evictable == p.lru.evictable
    && q.lru.history.Keys == p.lru.history.Keys + {f} && |q.lru.history[f]| == 1
    && (forall g: FrameId :: g in p.lru.history && g != f ==> q.lru.history[g] == p.lru.history[g])
    && (!frame.dirty ==> frame.data == Stored(p, page))
  }

  lemma FilledFrame(p: Pool, f: FrameId, page: PageId, frame: Frame, q: Pool, g: FrameId)
    requires Filled(p, f, page, frame, q) && g < |p.frames| && FrameOk(p, Some(f), f) && FrameOk(p, Some(f), g)
    requires p.frames[f].page.None?
    ensures FrameOk(q, None, g)
  {
  }

  lemma FilledLinked(p: Pool, f: FrameId, page: PageId, frame: Frame, q: Pool)
    requires Filled(p, f, page, frame, q) && Linked(p) && p.frames[f].page.None?
    ensures Linked(q)
  {
  }

  /** Filling an empty frame makes its bytes the page's content and leaves the others alone. */
  lemma FilledWorks(p: Pool, f: FrameId, page: PageId, frame: Frame, q: Pool)
    requires Sound(p, Some(f)) && Unpinned(p) && Filled(p, f, page, frame, q)
    ensures Inv(q) && PinnedOnly(q, f)
    ensures forall other: PageId :: Content(q, other) == if other == page then frame.data else Content(p, other)
  {
    assert FrameOk(p, Some(f), f);
    FilledLinked(p, f, page, frame, q);
    forall g: FrameId | g < |q.frames| ensures FrameOk(q, None, g) {
      FilledFrame(p, f, page, frame, q, g);
    }
  }

  lemma OccupiedIsFilled(p: Pool, f: FrameId, page: PageId, data: Data, dirty: bool)
    requires Sound(p, Some(f)) && Unpinned(p) && page !in p.table && (!dirty ==> data == Stored(p, page))
    ensures Filled(p, f, page, Frame(data, Some(page), 1, dirty), Occupied(p, f, page, data, dirty))
  {
    assert FrameOk(p, Some(f), f);
    RecordedAt(p.lru, f);
  }

  // ---------------------------------------------------------------- operations

  lemma HitWorks(p: Pool, page: PageId, hint: ReadHint)
    requires Inv(p) && Unpinned(p) && page in p.table
    ensures var (r, q) := PinPage(p, page, hint);
            r == Ok(p.table[page]) && Inv(q) && PinnedOnly(q, r.value) && q.table == p.table && SameContent(p, q)
  {
    var f := p.table[page];
    assert FrameOk(p, None, f);
    RecordedAt(p.lru, f);
    var (r, q) := PinPage(p, page, hint);
    assert q.lru.history.Keys == p.lru.history.Keys;
    SameData(p, q, f);
  }

  lemma MarkWorks(p: Pool, f: FrameId)
    requires Inv(p) && Holds(p, f)
    ensures Inv(p.(lru := Marked(p.lru, f))) && SameContent(p, p.(lru := Marked(p.lru, f)))
  {
    assert FrameOk(p, None, f);
    SameData(p, p.(lru := Marked(p.lru, f)), f);
  }

  lemma MissWorks(p: Pool, page: PageId, hint: ReadHint)
    requires Inv(p) && Unpinned(p) && page !in p.table
    ensures var (r, q) := PinPage(p, page, hint);
            r.Ok? && Inv(q) && PinnedOnly(q, r.value) && SameContent(p, q) && page in q.table && q.table[page] == r.value
  {
    EvictWorks(p);
    var (r, q) := EvictOrTakeFree(p);
    var data := Stored(q, page);
    assert Content(q, page) == Content(p, page);
    OccupiedIsFilled(q, r.value, page, data, false);
    var loaded := Occupied(q, r.value, page, data, false);
    FilledWorks(q, r.value, page, Frame(data, Some(page), 1, false), loaded);
    MarkWorks(loaded, r.value);
  }

  /** With no guard alive, pinning a page always succeeds: the guard shows the page's content, and
      no page's content changes. */
  lemma PinWorks(p: Pool, page: PageId, hint: ReadHint)
    requires Inv(p) && Unpinned(p)
    ensures var (r, q) := PinPage(p, page, hint);
            && r.Ok? && Inv(q) && PinnedOnly(q, r.value) && SameContent(p, q)
            && page in q.table && q.table[page] == r.value && q.frames[r.value].data == Content(p, page)
  {
    if page in p.table {
      HitWorks(p, page, hint);
    } else {
      MissWorks(p, page, hint);
    }
    var (r, q) := PinPage(p, page, hint);
    assert Content(q, page) == Content(p, page);
  }

  /** A new page is refused exactly when it is cached; otherwise it reads as zeros. */
  lemma NewPageWorks(p: Pool, page: PageId)
    requires Inv(p) && Unpinned(p)
    ensures var (r, q) := NewPage(p, page);
            && (r.Err? <==> page in p.table) && Inv(q) && (r.Err? ==> q == p)
            && (r.Ok? ==> PinnedOnly(q, r.value) && page in q.table && q.table[page] == r.value)
            && forall other: PageId ::
                 Content(q, other) == if r.Ok? && other == page then Zeros(p.pageSize) else Content(p, other)
  {
    if page !in p.table {
      EvictWorks(p);
      var (r, q) := EvictOrTakeFree(p);
      OccupiedIsFilled(q, r.value, page, Zeros(q.pageSize), true);
      FilledWorks(q, r.value, page, Frame(Zeros(q.pageSize), Some(page), 1, true),
                  Occupied(q, r.value, page, Zeros(q.pageSize), true));
    }
  }

  lemma ReleaseWorks(p: Pool, f: FrameId)
    requires Inv(p) && PinnedOnly(p, f) && Holds(p, f)
    ensures var q := ReleasePin(p, f);
            Inv(q) && Unpinned(q) && SameContent(p, q) && q.table == p.table && q.lru.history == p.lru.history
  {
    assert FrameOk(p, None, f);
    SameData(p, ReleasePin(p, f), f);
  }

  lemma WriteWorks(p: Pool, f: FrameId, page: PageId, data: Data)
    requires Inv(p) && PinnedOnly(p, f) && page in p.table && p.table[page] == f
    ensures var q := WriteFrame(p, f, data);
            && Inv(q) && PinnedOnly(q, f) && q.table == p.table
            && forall other: PageId :: Content(q, other) == if other == page then data else Content(p, other)
  {
    assert FrameOk(p, None, f);
    SamePagesWorks(p, WriteFrame(p, f, data), f);
  }

  /** Flushing writes the page's content to the source and changes no content. */
  lemma FlushWorks(p: Pool, page: PageId)
    requires Inv(p)
    ensures var q := FlushPage(p, page);
            && Inv(q) && SameContent(p, q) && (Unpinned(p) ==> Unpinned(q)) && q.table == p.table && q.lru == p.lru
            && Stored(q, page) == Content(p, page)
            && (forall other: PageId :: other != page ==> Stored(q, other) == Stored(p, other))
  {
    if page in p.table {
      var f := p.table[page];
      assert FrameOk(p, None, f);
      if p.frames[f].dirty {
        SameData(p, FlushPage(p, page), f);
      }
    }
  }

  // ---------------------------------------------------------------- whole runs

  datatype Op =
    | Read(page: PageId, hint: ReadHint)
    | Write(page: PageId, hint: ReadHint, data: Data)
    | New(page: PageId)
    | Flush(page: PageId)

  datatype Answer = Seen(data: Data) | Done | Refused

  /** One use of the pool: pin, look or write, unpin; a new page, looked at and unpinned; or a flush. */
  ghost function Step(p: Pool, op: Op): (Answer, Pool)
    requires Inv(p) && Unpinned(p)
  {
    match op
    case Read(page, hint) =>
      PinWorks(p, page, hint);
      var (r, q) := PinPage(p, page, hint);
      (Seen(q.frames[r.value].data), ReleasePin(q, r.value))
    case Write(page, hint, data) =>
      PinWorks(p, page, hint);
      var (r, q) := PinPage(p, page, hint);
      (Done, ReleasePin(WriteFrame(q, r.value, data), r.value))
    case New(page) =>
      NewPageWorks(p, page);
      var (r, q) := NewPage(p, page);
      if r.Err? then (Refused, q) else (Seen(q.frames[r.value].data), ReleasePin(q, r.value))
    case Flush(page) => (Done, FlushPage(p, page))
  }

  /** A new page is refused because it is cached. */
  predicate Refuses(p: Pool, op: Op) { op.New? && op.page in p.table }

  /** The same use of plain memory, given whether it is refused. */
  ghost function PlainStep(m: PageId -> Data, pageSize: nat, op: Op, refused: bool): (Answer, PageId -> Data) {
    match op
    case Read(page, _) => (Seen(m(page)), m)
    case Write(page, _, data) => (Done, other => if other == page then data else m(other))
    case New(page) =>
      if refused then (Refused, m) else (Seen(Zeros(pageSize)), other => if other == page then Zeros(pageSize) else m(other))
    case Flush(_) => (Done, m)
  }

  ghost predicate Shows(p: Pool, m: PageId -> Data)
    requires TableOk(p)
  {
    forall page: PageId :: Content(p, page) == m(page)
  }

  lemma EvictKeepsSize(p: Pool)
    requires InRange(p)
    ensures EvictOrTakeFree(p).1.pageSize == p.pageSize
  {
  }

  lemma PinKeepsSize(p: Pool, page: PageId, hint: ReadHint)
    requires TableOk(p) && InRange(p)
    ensures PinPage(p, page, hint).1.pageSize == p.pageSize
  {
    EvictKeepsSize(p);
  }

  lemma SizeKept(p: Pool, op: Op)
    requires Inv(p) && Unpinned(p)
    ensures Step(p, op).1.pageSize == p.pageSize
  {
    match op
    case Read(page, hint) =>
      PinWorks(p, page, hint);
      PinKeepsSize(p, page, hint);
    case Write(page, hint, data) =>
      PinWorks(p, page, hint);
      PinKeepsSize(p, page, hint);
    case New(page) =>
      NewPageWorks(p, page);
      EvictKeepsSize(p);
    case Flush(page) =>
  }

  lemma StepTransparent(p: Pool, m: PageId -> Data, op: Op)
    requires Inv(p) && Unpinned(p) && Shows(p, m)
    ensures Step(p, op).0 == PlainStep(m, p.pageSize, op, Refuses(p, op)).0
    ensures var q := Step(p, op).1;
            Inv(q) && Unpinned(q) && Shows(q, PlainStep(m, p.pageSize, op, Refuses(p, op)).1) && q.pageSize == p.pageSize
  {
    SizeKept(p, op);
    match op
    case Read(page, hint) =>
      PinWorks(p, page, hint);
      var (r, q) := PinPage(p, page, hint);
      ReleaseWorks(q, r.value);
    case Write(page, hint, data) =>
      PinWorks(p, page, hint);
      var (r, q) := PinPage(p, page, hint);
      WriteWorks(q, r.value, page, data);
      ReleaseWorks(WriteFrame(q, r.value, data), r.value);
    case New(page) =>
      NewStepTransparent(p, m, page);
    case Flush(page) =>
      FlushWorks(p, page);
  }

  lemma NewStepTransparent(p: Pool, m: PageId -> Data, page: PageId)
    requires Inv(p) && Unpinned(p) && Shows(p, m)
    ensures var (a, q) := Step(p, New(page));
            var (b, n) := PlainStep(m, p.pageSize, New(page), page in p.table);
            a == b && Inv(q) && Unpinned(q) && Shows(q, n)
  {
    NewPageWorks(p, page);
    var (r, q) := NewPage(p, page);
    if r.Ok? {
      assert Content(q, page) == Zeros(p.pageSize);
      assert FrameOk(q, None, r.value);
      ReleaseWorks(q, r.value);
    }
  }

  ghost function Run(p: Pool, ops: seq<Op>): (seq<Answer>, Pool)
    requires Inv(p) && Unpinned(p)
    ensures Inv(Run(p, ops).1) && Unpinned(Run(p, ops).1)
    decreases |ops|
  {
    if ops == [] then ([], p)
    else
      StepTransparent(p, page => Content(p, page), ops[0]);
      var (out, q) := Step(p, ops[0]);
      var (outs, last) := Run(q, ops[1..]);
      ([out] + outs, last)
  }

  /** Which of the operations are new pages of pages cached at that time. */
  ghost function Refusals(p: Pool, ops: seq<Op>): (r: seq<bool>)
    requires Inv(p) && Unpinned(p)
    ensures |r| == |ops|
    decreases |ops|
  {
    if ops == [] then []
    else
      StepTransparent(p, page => Content(p, page), ops[0]);
      [Refuses(p, ops[0])] + Refusals(Step(p, ops[0]).1, ops[1..])
  }

  ghost function PlainRun(m: PageId -> Data, pageSize: nat, ops: seq<Op>, refused: seq<bool>): seq<Answer>
    requires |refused| == |ops|
    decreases |ops|
  {
    if ops == [] then []
    else
      var (out, n) := PlainStep(m, pageSize, ops[0], refused[0]);
      [out] + PlainRun(n, pageSize, ops[1..], refused[1..])
  }

  /** Over any run the pool answers as plain memory would, whatever it evicts on the way; only which
      new pages are refused depends on what is cached. */
  lemma {:induction false} RunTransparent(p: Pool, m: PageId -> Data, ops: seq<Op>)
    requires Inv(p) && Unpinned(p) && Shows(p, m)
    ensures Run(p, ops).0 == PlainRun(m, p.pageSize, ops, Refusals(p, ops))
    decreases |ops|
  {
    if ops != [] {
      StepTransparent(p, m, ops[0]);
      StepTransparent(p, page => Content(p, page), ops[0]);
      RunTransparent(Step(p, ops[0]).1, PlainStep(m, p.pageSize, ops[0], Refuses(p, ops[0])).1, ops[1..]);
    }
  }

  /** A page that has just been used is cached, so a new page of that number is refused. */
  lemma NewAfterUse(p: Pool, op: Op)
    requires Inv(p) && Unpinned(p) && (op.Read? || op.Write? || op.New?)
    ensures var q := Step(p, op).1; Inv(q) && Unpinned(q) && Step(q, New(op.page)).0 == Refused
  {
    StepTransparent(p, page => Content(p, page), op);
    var q := Step(p, op).1;
    assert op.page in q.table by {
      match op
      case Read(page, hint) => PinWorks(p, page, hint);
      case Write(page, hint, data) => PinWorks(p, page, hint);
      case New(page) => NewPageWorks(p, page);
    }
    NewPageWorks(q, op.page);
  }

  // ---------------------------------------------------------------- scan resistance

  ghost predicate Spare(p: Pool) { p.free != [] || exists f: FrameId :: Cold(p.lru, f) }

  /** Pages in hot frames keep their frames and histories. */
  ghost predicate HotKept(p: Pool, q: Pool) {
    forall f: FrameId :: Hot(p.lru, f) && f < |p.frames| ==>
      f < |q.frames| && q.frames[f].page == p.frames[f].page && f in q.lru.history && q.lru.history[f] == p.lru.history[f]
  }

  /** A victim is hot only when no frame is cold. */
  lemma VictimIsCold(p: Pool)
    requires Inv(p) && Unpinned(p) && p.free == [] && Spare(p)
    ensures Victim(p.lru).Some? && Cold(p.lru, Victim(p.lru).value)
  {
    VictimExists(p);
    var f: FrameId :| Cold(p.lru, f);
    assert FrameOk(p, None, f);
    assert f in p.lru.evictable && Candidate(p.lru, f, false);
    assert FrameOk(p, None, Victim(p.lru).value);
  }

  /** With a spare frame, the frame taken is not a hot one, and the others keep page and history. */
  lemma EvictSparesHot(p: Pool)
    requires Inv(p) && Unpinned(p) && Spare(p)
    ensures var (r, q) := EvictOrTakeFree(p);
            && r.Ok? && !Hot(p.lru, r.value)
            && forall g: FrameId :: g in p.lru.history && g != r.value ==>
                 g in q.lru.history && q.lru.history[g] == p.lru.history[g] &&
                 (g < |p.frames| ==> q.frames[g] == p.frames[g])
  {
    if p.free != [] {
      assert p.free[|p.free| - 1] in p.free;
      assert FrameOk(p, None, p.free[|p.free| - 1]);
    } else {
      VictimIsCold(p);
      VictimGivenUp(p);
    }
  }

  lemma OccupiedIsCold(p: Pool, f: FrameId, page: PageId, data: Data, dirty: bool)
    requires Sound(p, Some(f))
    ensures var q := Occupied(p, f, page, data, dirty);
            && Cold(q.lru, f)
            && forall g: FrameId :: g in p.lru.history && g != f ==>
                 g in q.lru.history && q.lru.history[g] == p.lru.history[g] &&
                 (g < |p.frames| ==> q.frames[g] == p.frames[g])
  {
    assert FrameOk(p, Some(f), f);
    RecordedAt(p.lru, f);
  }

  lemma ScanPinKeepsHot(p: Pool, page: PageId)
    requires Inv(p) && Unpinned(p) && Spare(p)
    ensures var (r, q) := PinPage(p, page, Scan); r.Ok? && HotKept(p, q) && Spare(q)
  {
    if page !in p.table {
      EvictWorks(p);
      EvictSparesHot(p);
      var (r, q) := EvictOrTakeFree(p);
      OccupiedIsCold(q, r.value, page, Stored(q, page), false);
      var loaded := Occupied(q, r.value, page, Stored(q, page), false);
      assert Cold(Marked(loaded.lru, r.value), r.value);
    } else {
      assert PinPage(p, page, Scan).1.lru == p.lru;
    }
  }

  /** A scan-hinted pin keeps all hot pages if and only if it hits or a frame is spare. */
  lemma ScanPinExact(p: Pool, page: PageId)
    requires Inv(p) && Unpinned(p)
    ensures HotKept(p, PinPage(p, page, Scan).1) <==> page in p.table || Spare(p)
  {
    if page in p.table {
      assert PinPage(p, page, Scan).1.lru == p.lru;
    } else if Spare(p) {
      ScanPinKeepsHot(p, page);
    } else {
      VictimGivenUp(p);
      var f := Victim(p.lru).value;
      assert FrameOk(p, None, f);
      assert !Cold(p.lru, f);
      assert Hot(p.lru, f);
      assert PinPage(p, page, Scan).1.frames[f].page == Some(page);
    }
  }

  ghost function Scanned(p: Pool, pages: seq<PageId>): Pool
    requires Inv(p) && Unpinned(p)
    ensures Inv(Scanned(p, pages)) && Unpinned(Scanned(p, pages))
    decreases |pages|
  {
    if pages == [] then p
    else
      StepTransparent(p, page => Content(p, page), Read(pages[0], Scan));
      Scanned(Step(p, Read(pages[0], Scan)).1, pages[1..])
  }

  lemma ScanStepKeepsHot(p: Pool, page: PageId)
    requires Inv(p) && Unpinned(p) && Spare(p)
    ensures var q := Step(p, Read(page, Scan)).1; HotKept(p, q) && Spare(q)
  {
    ScanPinKeepsHot(p, page);
    PinWorks(p, page, Scan);
    var (r, q) := PinPage(p, page, Scan);
    ReleaseWorks(q, r.value);
    if q.free == [] {
      var f: FrameId :| Cold(q.lru, f);
      assert Cold(ReleasePin(q, r.value).lru, f);
    }
  }

  /** No scan, of any length and over any pages, evicts a page whose frame is hot, as long as one
      frame is free or cold when it starts. */
  lemma {:induction false} ScanResistance(p: Pool, pages: seq<PageId>)
    requires Inv(p) && Unpinned(p) && Spare(p)
    ensures HotKept(p, Scanned(p, pages)) && Spare(Scanned(p, pages))
    decreases |pages|
  {
    if pages != [] {
      StepTransparent(p, page => Content(p, page), Read(pages[0], Scan));
      ScanStepKeepsHot(p, pages[0]);
      ScanResistance(Step(p, Read(pages[0], Scan)).1, pages[1..]);
    }
  }

  /** A frame that is taken starts its history again; the other frames keep theirs or stay as they are. */
  lemma EvictedNotHot(p: Pool, f: FrameId)
    requires Inv(p) && Unpinned(p)
    ensures var (r, q) := EvictOrTakeFree(p);
            && r.Ok? && r.value !in q.lru.history && q.lru.k == 2
            && (f != r.value && !Hot(p.lru, f) ==> !Hot(q.lru, f))
  {
    EvictWorks(p);
    if p.free == [] {
      VictimGivenUp(p);
    } else {
      assert p.free[|p.free| - 1] in p.free;
      assert FrameOk(p, None, p.free[|p.free| - 1]);
    }
  }

  lemma LoadedNotHot(q: Pool, r: FrameId, page: PageId, data: Data, f: FrameId)
    requires r < |q.frames| && q.lru.k == 2 && r !in q.lru.history && (f == r || !Hot(q.lru, f))
    ensures var loaded := Occupied(q, r, page, data, false).lru; !Hot(loaded, f) && !Hot(Marked(loaded, r), f)
  {
    RecordedAt(q.lru, r);
  }

  /** A frame is not hot because of a scan. */
  lemma ScanStepNotHot(p: Pool, page: PageId, f: FrameId)
    requires Inv(p) && Unpinned(p) && (!Hot(p.lru, f) || (page !in p.table && EvictOrTakeFree(p).0 == Ok(f)))
    ensures !Hot(Step(p, Read(page, Scan)).1.lru, f)
  {
    PinWorks(p, page, Scan);
    var (r, q) := PinPage(p, page, Scan);
    ReleaseWorks(q, r.value);
    if page !in p.table {
      EvictedNotHot(p, f);
      var (v, emptied) := EvictOrTakeFree(p);
      LoadedNotHot(emptied, v.value, page, Stored(emptied, page), f);
    } else {
      assert q.lru == p.lru;
    }
  }

  lemma {:induction false} ScanNotHot(p: Pool, pages: seq<PageId>, f: FrameId)
    requires Inv(p) && Unpinned(p) && !Hot(p.lru, f)
    ensures !Hot(Scanned(p, pages).lru, f)
    decreases |pages|
  {
    if pages != [] {
      StepTransparent(p, page => Content(p, page), Read(pages[0], Scan));
      ScanStepNotHot(p, pages[0], f);
      ScanNotHot(Step(p, Read(pages[0], Scan)).1, pages[1..], f);
    }
  }

  /** Nothing cached, no history and no free frame differs. */
  ghost predicate SameUse(p: Pool, q: Pool) {
    && q.table == p.table && q.lru.history == p.lru.history && q.free == p.free && q.lru.k == p.lru.k
    && |q.frames| == |p.frames| && forall f: FrameId :: f < |p.frames| ==> q.frames[f].page == p.frames[f].page
  }

  lemma ScanHit(p: Pool, page: PageId)
    requires Inv(p) && Unpinned(p) && page in p.table
    ensures var q := Step(p, Read(page, Scan)).1; Inv(q) && Unpinned(q) && SameUse(p, q)
  {
    PinWorks(p, page, Scan);
    var (r, q) := PinPage(p, page, Scan);
    ReleaseWorks(q, r.value);
  }

  lemma SameUseSpare(p: Pool, q: Pool)
    requires SameUse(p, q)
    ensures Spare(p) <==> Spare(q)
  {
    assert forall f: FrameId :: Cold(p.lru, f) <==> Cold(q.lru, f);
  }

  lemma SameUseKept(p: Pool, q: Pool, s: Pool)
    requires SameUse(p, q)
    ensures HotKept(p, s) <==> HotKept(q, s)
  {
    assert forall f: FrameId :: Hot(p.lru, f) <==> Hot(q.lru, f);
  }

  /** Whatever is scanned: all hot pages keep frames and histories if and only if a frame is spare at
      the start or every page scanned is cached. */
  lemma {:induction false} ScanExact(p: Pool, pages: seq<PageId>)
    requires Inv(p) && Unpinned(p)
    ensures HotKept(p, Scanned(p, pages)) <==> Spare(p) || forall page :: page in pages ==> page in p.table
    decreases |pages|
  {
    if Spare(p) {
      ScanResistance(p, pages);
    } else if pages != [] {
      if pages[0] in p.table {
        ScanHit(p, pages[0]);
        var q := Step(p, Read(pages[0], Scan)).1;
        ScanExact(q, pages[1..]);
        SameUseSpare(p, q);
        SameUseKept(p, q, Scanned(q, pages[1..]));
        assert pages == [pages[0]] + pages[1..];
      } else {
        FirstMiss(p, pages);
      }
    }
  }

  /** Without a spare frame the first page that is not cached takes the place of a hot page. */
  lemma FirstMiss(p: Pool, pages: seq<PageId>)
    requires Inv(p) && Unpinned(p) && !Spare(p) && pages != [] && pages[0] !in p.table
    ensures !HotKept(p, Scanned(p, pages))
  {
    VictimGivenUp(p);
    var f := Victim(p.lru).value;
    assert FrameOk(p, None, f);
    assert !Cold(p.lru, f);
    assert Hot(p.lru, f);
    StepTransparent(p, page => Content(p, page), Read(pages[0], Scan));
    ScanStepNotHot(p, pages[0], f);
    var q := Step(p, Read(pages[0], Scan)).1;
    ScanNotHot(q, pages[1..], f);
    assert Scanned(p, pages) == Scanned(q, pages[1..]);
  }
}
