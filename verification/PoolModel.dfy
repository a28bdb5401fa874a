/** The buffer pool as a value: frames, page table, free list, replacement policy and page source. */
module PoolModel {
  import opened Wrappers
  import opened Bytes
  import opened LruModel

  const INVALID_PAGE_ID: nat := 0xFFFF_FFFF_FFFF_FFFF

  /** The largest number is kept for frames without a page. */
  type PageId = x: nat | x < INVALID_PAGE_ID
  type Data = seq<Byte>

  datatype Frame = Frame(data: Data, page: Option<PageId>, pins: nat, dirty: bool)

  datatype ReadHint = Point | Scan

  datatype PoolError = PageExists(page: PageId) | NoEvictableFrame | VictimPinned(frame: FrameId) | VictimEmpty(frame: FrameId)

  datatype Pool = Pool(pageSize: nat, frames: seq<Frame>, table: map<PageId, FrameId>, free: seq<FrameId>, lru: Lru,
                       source: map<PageId, Data>)

  type Outcome = Result<FrameId, PoolError>

  function Zeros(n: nat): Data { seq(n, i => 0) }

  /** What the source returns for a page: zeros when it has never been written. */
  function Stored(p: Pool, page: PageId): Data {
    if page in p.source then p.source[page] else Zeros(p.pageSize)
  }

  function WithFrame(p: Pool, f: FrameId, frame: Frame): Pool
    requires f < |p.frames|
  {
    p.(frames := p.frames[f := frame])
  }

  /** The frame numbers the pool goes by are those of its frames. */
  predicate InRange(p: Pool) {
    (forall f :: f in p.free ==> f < |p.frames|) && (forall f :: f in p.lru.evictable ==> f < |p.frames|)
  }

  // ---------------------------------------------------------------- operations

  function NewPool(pageSize: nat, count: nat, source: map<PageId, Data>): Pool {
    Pool(pageSize, seq(count, i => Frame(Zeros(pageSize), None, 0, false)), map[], seq(count, i => i), Lru(2, 0, map[], []), source)
  }

  /** Takes a free frame, or empties the policy's victim, writing it back when dirty. */
  function EvictOrTakeFree(p: Pool): (o: (Outcome, Pool))
    requires InRange(p)
    ensures |o.1.frames| == |p.frames| && (o.0.Ok? ==> o.0.value < |p.frames|)
  {
    if p.free != [] then
      assert p.free[|p.free| - 1] in p.free;
      (Ok(p.free[|p.free| - 1]), p.(free := p.free[..|p.free| - 1]))
    else
      match Victim(p.lru)
      case None => (Err(NoEvictableFrame), p)
      case Some(f) => EmptyVictim(p.(lru := Taken(p.lru, f)), f)
  }

  function EmptyVictim(p: Pool, f: FrameId): (Outcome, Pool)
    requires f < |p.frames|
  {
    var frame := p.frames[f];
    if frame.pins > 0 then (Err(VictimPinned(f)), p)
    else if frame.page.None? then (Err(VictimEmpty(f)), p)
    else
      var source := if frame.dirty then p.source[frame.page.value := frame.data] else p.source;
      (Ok(f), Pool(p.pageSize, p.frames[f := Frame(frame.data, None, 0, false)], p.table - {frame.page.value}, p.free,
                   Forgotten(p.lru, f), source))
  }

  /** Puts a page into an empty frame and pins it. */
  function Occupied(p: Pool, f: FrameId, page: PageId, data: Data, dirty: bool): Pool
    requires f < |p.frames|
  {
    WithFrame(p, f, Frame(data, Some(page), p.frames[f].pins + 1, dirty)).(
      table := p.table[page := f], lru := Recorded(p.lru, f))
  }

  function PinPage(p: Pool, page: PageId, hint: ReadHint): (Outcome, Pool)
    requires TableOk(p) && InRange(p)
  {
    if page in p.table then
      var f := p.table[page];
      (Ok(f), WithFrame(p, f, p.frames[f].(pins := p.frames[f].pins + 1)).(
         lru := if hint.Point? then Recorded(p.lru, f) else p.lru))
    else
      var (r, q) := EvictOrTakeFree(p);
      if r.Err? then (r, q)
      else
        var loaded := Occupied(q, r.value, page, Stored(q, page), false);
        (r, if hint.Scan? then loaded.(lru := Marked(loaded.lru, r.value)) else loaded)
  }

  function NewPage(p: Pool, page: PageId): (Outcome, Pool)
    requires InRange(p)
  {
    if page in p.table then (Err(PageExists(page)), p)
    else
      var (r, q) := EvictOrTakeFree(p);
      (r, if r.Err? then q else Occupied(q, r.value, page, Zeros(q.pageSize), true))
  }

  function ReleasePin(p: Pool, f: FrameId): Pool
    requires f < |p.frames| && p.frames[f].pins > 0
  {
    var q := WithFrame(p, f, p.frames[f].(pins := p.frames[f].pins - 1));
    if q.frames[f].pins == 0 then q.(lru := Marked(q.lru, f)) else q
  }

  /** A write through a pinned frame: new bytes, then `mark_dirty`. */
  function WriteFrame(p: Pool, f: FrameId, data: Data): Pool
    requires f < |p.frames|
  {
    WithFrame(p, f, p.frames[f].(data := data, dirty := true))
  }

  function FlushPage(p: Pool, page: PageId): Pool
    requires TableOk(p)
  {
    if page !in p.table || !p.frames[p.table[page]].dirty then p
    else
      var f := p.table[page];
      WithFrame(p, f, p.frames[f].(dirty := false)).(source := p.source[page := p.frames[f].data])
  }

  // ---------------------------------------------------------------- invariants

  predicate Holds(p: Pool, f: FrameId) { f < |p.frames| && p.frames[f].page.Some? }

  predicate TableOk(p: Pool) {
    forall page :: page in p.table ==> p.table[page] < |p.frames| && p.frames[p.table[page]].page == Some(page)
  }

  /** An empty frame is on the free list, unless it is about to be filled. A cached frame is the one
      its page leads to; it has a history, is evictable when unpinned, and when clean holds what the
      source holds. */
  ghost predicate FrameOk(p: Pool, limbo: Option<FrameId>, f: FrameId)
    requires f < |p.frames|
  {
    match p.frames[f].page
    case None =>
      && p.frames[f].pins == 0 && f !in p.lru.history && f !in p.lru.evictable
      && (f in p.free <==> limbo != Some(f))
    case Some(page) =>
      && page in p.table && p.table[page] == f && f !in p.free && limbo != Some(f)
      && f in p.lru.history && 0 < |p.lru.history[f]| <= 2
      && (p.frames[f].pins == 0 ==> f in p.lru.evictable)
      && (!p.frames[f].dirty ==> p.frames[f].data == Stored(p, page))
  }

  ghost predicate NoRepeats(fs: seq<FrameId>) { forall i, j :: 0 <= i < j < |fs| ==> fs[i] != fs[j] }

  /** The page table leads to frames holding the pages, and all frame numbers are in range. */
  ghost predicate Linked(p: Pool) {
    && |p.frames| > 0 && p.lru.k == 2 && TableOk(p) && InRange(p) && NoRepeats(p.free)
    && forall f :: f in p.lru.history ==> f < |p.frames|
  }

  ghost predicate Sound(p: Pool, limbo: Option<FrameId>) {
    && Linked(p) && (limbo.Some? ==> limbo.value < |p.frames| && p.frames[limbo.value].page.None?)
    && forall f: FrameId :: f < |p.frames| ==> FrameOk(p, limbo, f)
  }

  ghost predicate Inv(p: Pool) { Sound(p, None) }

  /** No guard is alive. */
  ghost predicate Unpinned(p: Pool) { forall f: FrameId :: f < |p.frames| ==> p.frames[f].pins == 0 }

  /** The only guard alive is on `f`. */
  ghost predicate PinnedOnly(p: Pool, f: FrameId) {
    f < |p.frames| && forall g: FrameId :: g < |p.frames| ==> p.frames[g].pins == if g == f then 1 else 0
  }

  /** What a reader of the page sees: the cached bytes, else those of the source. */
  function Content(p: Pool, page: PageId): Data
    requires TableOk(p)
  {
    if page in p.table then p.frames[p.table[page]].data else Stored(p, page)
  }

  ghost predicate SameContent(p: Pool, q: Pool)
    requires TableOk(p) && TableOk(q)
  {
    forall page: PageId :: Content(q, page) == Content(p, page)
  }
}
