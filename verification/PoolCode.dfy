/** The buffer pool object and its replacement policy, step by step. */
module PoolCode {
  import opened Wrappers
  import opened Bytes
  import opened LruModel
  import opened LruCode
  import opened PoolModel
  import opened PoolProofs

  class BufferPool {
    const pageSize: nat
    const replacer: LruK
    var frames: seq<Frame>
    var table: map<PageId, FrameId>
    var free: seq<FrameId>
    var source: map<PageId, Data>

    function State(): Pool
      reads this, replacer
    {
      Pool(pageSize, frames, table, free, replacer.State(), source)
    }

    constructor (source: map<PageId, Data>, count: nat, pageSize: nat)
      requires count > 0
      ensures State() == NewPool(pageSize, count, source) && Inv(State()) && Unpinned(State())
      ensures fresh(replacer)
    {
      this.pageSize := pageSize;
      this.source := source;
      frames := seq(count, i => Frame(Zeros(pageSize), None, 0, false));
      table := map[];
      free := seq(count, i => i);
      replacer := new LruK(2);
      NewPoolIsSound(pageSize, count, source);
    }

    /** The frame to use next; an evicted page is written back first when it is dirty. */
    method TakeFrame() returns (r: Outcome)
      requires Inv(State())
      modifies this, replacer
      ensures (r, State()) == EvictOrTakeFree(old(State()))
    {
      assert forall f: FrameId :: f in free ==> f < |frames|;
      if free != [] {
        r := Ok(free[|free| - 1]);
        free := free[..|free| - 1];
        return;
      }
      AllHaveHistory(State());
      var victim := replacer.PickVictim();
      if victim.None? {
        return Err(NoEvictableFrame);
      }
      var f := victim.value;
      var frame := frames[f];
      if frame.pins > 0 {
        return Err(VictimPinned(f));
      }
      if frame.page.None? {
        return Err(VictimEmpty(f));
      }
      if frame.dirty {
        source := source[frame.page.value := frame.data];
      }
      table := table - {frame.page.value};
      frames := frames[f := Frame(frame.data, None, 0, false)];
      replacer.Forget(f);
      r := Ok(f);
    }

    lemma AllHaveHistory(p: Pool)
      requires Inv(p)
      ensures forall f: FrameId :: f in p.lru.history ==> p.lru.history[f] != []
    {
      forall f: FrameId | f in p.lru.history ensures p.lru.history[f] != [] {
        assert FrameOk(p, None, f);
      }
    }

    /** Pins a page, reading it from the source on a miss. */
    method Pin(page: PageId, hint: ReadHint) returns (r: Outcome)
      requires Inv(State()) && Unpinned(State())
      modifies this, replacer
      ensures (r, State()) == PinPage(old(State()), page, hint)
      ensures r.Ok? && Inv(State()) && PinnedOnly(State(), r.value) && SameContent(old(State()), State())
      ensures frames[r.value].page == Some(page) && frames[r.value].data == Content(old(State()), page)
    {
      PinWorks(State(), page, hint);
      if page in table {
        var f := table[page];
        if hint.Point? {
          replacer.RecordAccess(f);
        }
        frames := frames[f := frames[f].(pins := frames[f].pins + 1)];
        return Ok(f);
      }
      r := Fault(page, hint);
    }

    /** Reads a page that is not in the pool. */
    method Fault(page: PageId, hint: ReadHint) returns (r: Outcome)
      requires Inv(State()) && page !in table
      modifies this, replacer
      ensures (r, State()) == PinPage(old(State()), page, hint)
    {
      r := TakeFrame();
      if r.Err? {
        return;
      }
      var f := r.value;
      var data := if page in source then source[page] else Zeros(pageSize);
      frames := frames[f := Frame(data, Some(page), frames[f].pins + 1, false)];
      table := table[page := f];
      replacer.RecordAccess(f);
      if hint.Scan? {
        replacer.MarkEvictable(f);
      }
    }

    /** Makes a zeroed page in the pool. */
    method New(page: PageId) returns (r: Outcome)
      requires Inv(State()) && Unpinned(State())
      modifies this, replacer
      ensures (r, State()) == NewPage(old(State()), page)
      ensures Inv(State()) && (r.Err? <==> page in old(table)) && (r.Ok? ==> PinnedOnly(State(), r.value))
      ensures forall other: PageId ::
                Content(State(), other) == if r.Ok? && other == page then Zeros(pageSize) else Content(old(State()), other)
    {
      NewPageWorks(State(), page);
      if page in table {
        return Err(PageExists(page));
      }
      r := TakeFrame();
      if r.Err? {
        return;
      }
      var f := r.value;
      frames := frames[f := Frame(Zeros(pageSize), Some(page), frames[f].pins + 1, true)];
      table := table[page := f];
      replacer.RecordAccess(f);
    }

    /** Dropping the guard of a pinned page. */
    method Release(f: FrameId)
      requires Inv(State()) && PinnedOnly(State(), f)
      modifies this, replacer
      ensures State() == ReleasePin(old(State()), f)
      ensures Inv(State()) && Unpinned(State()) && SameContent(old(State()), State())
    {
      assert FrameOk(State(), None, f);
      ReleaseWorks(State(), f);
      frames := frames[f := frames[f].(pins := frames[f].pins - 1)];
      if frames[f].pins == 0 {
        replacer.MarkEvictable(f);
      }
    }

    /** Writing through a guard. */
    method Write(f: FrameId, data: Data)
      requires Inv(State()) && PinnedOnly(State(), f)
      modifies this`frames
      ensures State() == WriteFrame(old(State()), f, data)
      ensures Inv(State()) && PinnedOnly(State(), f) && frames[f].page == old(frames[f].page)
      ensures forall page: PageId ::
                Content(State(), page) == if Some(page) == frames[f].page then data else Content(old(State()), page)
    {
      assert FrameOk(State(), None, f);
      WriteWorks(State(), f, frames[f].page.value, data);
      frames := frames[f := frames[f].(data := data, dirty := true)];
    }

    method Flush(page: PageId)
      requires Inv(State())
      modifies this
      ensures State() == FlushPage(old(State()), page)
      ensures Inv(State()) && SameContent(old(State()), State())
    {
      FlushWorks(State(), page);
      if page !in table || !frames[table[page]].dirty {
        return;
      }
      var f := table[page];
      source := source[page := frames[f].data];
      frames := frames[f := frames[f].(dirty := false)];
    }

    /** Afterwards the source holds every page's content. */
    method FlushAll()
      requires Inv(State())
      modifies this
      ensures Inv(State()) && SameContent(old(State()), State()) && table == old(table)
      ensures forall page: PageId :: Stored(State(), page) == Content(old(State()), page)
    {
      var left := table.Keys;
      while left != {}
        invariant Inv(State()) && SameContent(old(State()), State())
        invariant table == old(table)
        invariant forall page: PageId :: page !in left ==> Stored(State(), page) == Content(old(State()), page)
        decreases |left|
      {
        var page :| page in left;
        FlushWorks(State(), page);
        Flush(page);
        left := left - {page};
      }
    }

    /** Looks at each page once, as a scan does: no page in a hot frame is evicted. */
    method ScanThrough(pages: seq<PageId>)
      requires Inv(State()) && Unpinned(State())
      modifies this, replacer
      ensures Inv(State()) && Unpinned(State()) && SameContent(old(State()), State())
      ensures State() == Scanned(old(State()), pages)
      ensures Spare(old(State())) ==> HotKept(old(State()), State())
    {
      if Spare(State()) {
        ScanResistance(State(), pages);
      }
      for i := 0 to |pages|
        invariant Inv(State()) && Unpinned(State()) && SameContent(old(State()), State())
        invariant Scanned(State(), pages[i..]) == Scanned(old(State()), pages)
      {
        assert pages[i..][0] == pages[i] && pages[i..][1..] == pages[i + 1..];
        var r := Pin(pages[i], Scan);
        Release(r.value);
      }
    }
  }

  /** Opening a pool checks its sizes first. */
  method OpenPool(source: map<PageId, Data>, sourcePageSize: nat, count: nat, pageSize: nat) returns (r: Option<BufferPool>)
    ensures r.Some? <==> count != 0 && pageSize != 0 && pageSize % 64 == 0 && sourcePageSize == pageSize
    ensures r.Some? ==> fresh(r.value) && r.value.State() == NewPool(pageSize, count, source) && Inv(r.value.State())
  {
    if count == 0 || pageSize == 0 || pageSize % 64 != 0 || sourcePageSize != pageSize {
      return None;
    }
    var pool := new BufferPool(source, count, pageSize);
    r := Some(pool);
  }
}
