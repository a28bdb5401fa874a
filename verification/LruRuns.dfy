/** Whole runs of the replacement policy, told from the trace of what happened alone. */
module LruRuns {
  import opened Wrappers
  import opened LruModel

  /** A pick is recorded with the frame it gave. */
  datatype Event =
    | Access(frame: FrameId)
    | Mark(frame: FrameId)
    | Forget(frame: FrameId)
    | Pick(victim: Option<FrameId>)

  type Trace = seq<Event>

  function Init(es: Trace): Trace
    requires es != []
  {
    es[..|es| - 1]
  }

  function Last(es: Trace): Event
    requires es != []
  {
    es[|es| - 1]
  }

  // ---------------------------------------------------------------- what a trace says

  /** The number of accesses. */
  function Clock(es: Trace): nat {
    if es == [] then 0 else Clock(Init(es)) + if Last(es).Access? then 1 else 0
  }

  predicate Ends(e: Event, f: FrameId) { e == Forget(f) || e == Pick(Some(f)) }

  /** When the frame was accessed since it was last forgotten or evicted, newest first; an access
      happens at its number among all accesses. */
  function Times(es: Trace, f: FrameId): seq<nat> {
    if es == [] || Ends(Last(es), f) then []
    else (if Last(es) == Access(f) then [Clock(es)] else []) + Times(Init(es), f)
  }

  /** How often the frame stands among the evictable ones. */
  function Marks(es: Trace, f: FrameId): nat {
    if es == [] || Last(es) == Forget(f) then 0
    else
      var n := Marks(Init(es), f);
      if Last(es) == Mark(f) then n + 1 else if Last(es) == Pick(Some(f)) && n > 0 then n - 1 else n
  }

  function First(k: nat, times: seq<nat>): seq<nat> { if |times| > k then times[..k] else times }

  predicate Waiting(es: Trace, f: FrameId) { Marks(es, f) > 0 && Times(es, f) != [] }

  predicate Proven(k: nat, times: seq<nat>) { |times| >= k }

  /** The time of the K-th most recent access, of the oldest one when there are fewer. */
  function Kth(k: nat, times: seq<nat>): nat
    requires k >= 1 && times != []
  {
    if Proven(k, times) then times[k - 1] else times[|times| - 1]
  }

  /** The frame with accesses `a` is to go rather than the one with `b`: with fewer than K accesses
      rather than with K, and otherwise with the older K-th most recent one. */
  predicate Sooner(k: nat, a: seq<nat>, b: seq<nat>)
    requires k >= 1 && a != [] && b != []
  {
    if Proven(k, a) == Proven(k, b) then Kth(k, a) < Kth(k, b) else !Proven(k, a)
  }

  /** What is to be picked after the trace. */
  ghost predicate Due(k: nat, es: Trace, v: Option<FrameId>)
    requires k >= 1
  {
    match v
    case None => forall f: FrameId :: !Waiting(es, f)
    case Some(f) =>
      && Waiting(es, f)
      && forall g: FrameId :: Waiting(es, g) && g != f ==> Sooner(k, Times(es, f), Times(es, g))
  }

  /** Every pick gave the frame that was due. */
  ghost predicate Legal(k: nat, es: Trace)
    requires k >= 1
  {
    es == [] || (Legal(k, Init(es)) && (Last(es).Pick? ==> Due(k, Init(es), Last(es).victim)))
  }

  // ---------------------------------------------------------------- what the policy does

  function Step(l: Lru, e: Event): Lru {
    match e
    case Access(f) => Recorded(l, f)
    case Mark(f) => Marked(l, f)
    case Forget(f) => Forgotten(l, f)
    case Pick(_) => if Victim(l).Some? then Taken(l, Victim(l).value) else l
  }

  function Run(k: nat, es: Trace): Lru {
    if es == [] then Lru(k, 0, map[], []) else Step(Run(k, Init(es)), Last(es))
  }

  /** Every pick gave what the policy gives. */
  predicate Happened(k: nat, es: Trace) {
    es == [] || (Happened(k, Init(es)) && (Last(es).Pick? ==> Last(es).victim == Victim(Run(k, Init(es)))))
  }

  // ---------------------------------------------------------------- the state of the policy

  ghost predicate HistoryAt(l: Lru, k: nat, es: Trace, f: FrameId) {
    && (f in l.history <==> Times(es, f) != [])
    && (f in l.history ==> l.history[f] == First(k, Times(es, f)))
  }

  /** The history of a frame is the times of its last accesses, at most K, newest first. */
  ghost predicate Agrees(l: Lru, k: nat, es: Trace) {
    && l.k == k && l.clock == Clock(es)
    && (forall f: FrameId :: HistoryAt(l, k, es, f))
    && (forall f: FrameId :: multiset(l.evictable)[f] == Marks(es, f))
  }

  lemma {:induction false} DroppingCounts(es: seq<FrameId>, f: FrameId)
    ensures multiset(Dropping(es, f)) == multiset(es)[f := 0]
  {
    if es != [] {
      DroppingCounts(es[..|es| - 1], f);
      assert es == es[..|es| - 1] + [es[|es| - 1]];
    }
  }

  lemma WithoutOneCounts(es: seq<FrameId>, f: FrameId)
    requires f in es
    ensures multiset(WithoutOne(es, f)) == multiset(es) - multiset{f}
  {
    var pos, n := FirstAt(es, f), |es| - 1;
    assert es == es[..n] + [es[n]];
    if pos < n {
      assert es[..n] == es[..pos] + [f] + es[pos + 1..n];
      assert WithoutOne(es, f) == es[..pos] + [es[n]] + es[pos + 1..n];
    } else {
      assert WithoutOne(es, f) == es[..n];
    }
  }

  lemma AfterInit(es: Trace, e: Event)
    ensures Init(es + [e]) == es && Last(es + [e]) == e
  {
  }

  lemma HistoryStep(l: Lru, k: nat, es: Trace, e: Event, f: FrameId)
    requires k >= 1 && Agrees(l, k, es) && (e.Pick? ==> e.victim == Victim(l))
    ensures HistoryAt(Step(l, e), k, es + [e], f)
  {
    AfterInit(es, e);
    assert HistoryAt(l, k, es, f);
    if e == Access(f) {
      assert Times(es + [e], f) == [l.clock + 1] + Times(es, f);
      RecordedFirst(k, l.clock + 1, Times(es, f));
    }
  }

  lemma RecordedFirst(k: nat, now: nat, times: seq<nat>)
    requires k >= 1
    ensures var hist := [now] + First(k, times);
            (if |hist| > k then hist[..|hist| - 1] else hist) == First(k, [now] + times)
  {
  }

  lemma MarksStep(l: Lru, k: nat, es: Trace, e: Event, f: FrameId)
    requires Agrees(l, k, es) && (e.Pick? ==> e.victim == Victim(l))
    ensures multiset(Step(l, e).evictable)[f] == Marks(es + [e], f)
  {
    AfterInit(es, e);
    match e
    case Access(_) =>
    case Mark(_) =>
    case Forget(g) => DroppingCounts(l.evictable, g);
    case Pick(v) =>
      if v.Some? {
        WithoutOneCounts(l.evictable, v.value);
      }
  }

  lemma StepAgrees(l: Lru, k: nat, es: Trace, e: Event)
    requires k >= 1 && Agrees(l, k, es) && (e.Pick? ==> e.victim == Victim(l))
    ensures Agrees(Step(l, e), k, es + [e])
  {
    AfterInit(es, e);
    forall f: FrameId {
      HistoryStep(l, k, es, e, f);
    }
    forall f: FrameId {
      MarksStep(l, k, es, e, f);
    }
  }

  // ---------------------------------------------------------------- the victim

  /** No two frames are accessed at one time. */
  lemma {:induction false} TimesApart(es: Trace, f: FrameId, g: FrameId, t: nat)
    requires t in Times(es, f)
    ensures t <= Clock(es)
    ensures t in Times(es, g) ==> f == g
  {
    if t in Times(Init(es), f) {
      TimesApart(Init(es), f, g, t);
    }
    if t in Times(es, g) && t in Times(Init(es), g) {
      TimesApart(Init(es), g, f, t);
    }
  }

  lemma KthApart(k: nat, es: Trace, f: FrameId, g: FrameId)
    requires k >= 1 && Times(es, f) != [] && Times(es, g) != [] && f != g
    ensures Kth(k, Times(es, f)) != Kth(k, Times(es, g))
  {
    TimesApart(es, f, g, Kth(k, Times(es, f)));
  }

  lemma OldestIsKth(l: Lru, k: nat, es: Trace, f: FrameId)
    requires k >= 1 && Agrees(l, k, es)
    ensures f in l.evictable <==> Marks(es, f) > 0
    ensures forall hot :: Candidate(l, f, hot) <==> Times(es, f) != [] && Proven(k, Times(es, f)) == hot
    ensures Times(es, f) != [] ==> f in l.history && l.history[f] != [] && Oldest(l, f) == Kth(k, Times(es, f))
  {
    assert HistoryAt(l, k, es, f);
    assert multiset(l.evictable)[f] == Marks(es, f);
    assert f in l.evictable <==> f in multiset(l.evictable);
  }

  /** The policy picks the frame that is due. */
  lemma VictimIsDue(l: Lru, k: nat, es: Trace)
    requires k >= 1 && Agrees(l, k, es)
    ensures Due(k, es, Victim(l))
  {
    var v := Victim(l);
    if v.None? {
      forall f: FrameId ensures !Waiting(es, f) {
        OldestIsKth(l, k, es, f);
        assert f in l.evictable ==> !Candidate(l, f, false) && !Candidate(l, f, true);
      }
    } else {
      OldestIsKth(l, k, es, v.value);
      forall g: FrameId | Waiting(es, g) && g != v.value ensures Sooner(k, Times(es, v.value), Times(es, g)) {
        OldestIsKth(l, k, es, g);
        KthApart(k, es, v.value, g);
        assert Candidate(l, g, Proven(k, Times(es, g)));
      }
    }
  }

  /** Only one frame is due. */
  lemma DueIsUnique(k: nat, es: Trace, v: Option<FrameId>, w: Option<FrameId>)
    requires k >= 1 && Due(k, es, v) && Due(k, es, w)
    ensures v == w
  {
  }

  // ---------------------------------------------------------------- whole runs

  /** After any run the policy holds, of every frame, the times of its last accesses, at most K of
      them and newest first, and its number of marks. */
  lemma {:induction false} RunAgrees(k: nat, es: Trace)
    requires k >= 1 && Happened(k, es)
    ensures Agrees(Run(k, es), k, es)
  {
    if es != [] {
      RunAgrees(k, Init(es));
      StepAgrees(Run(k, Init(es)), k, Init(es), Last(es));
      assert Init(es) + [Last(es)] == es;
    }
  }

  /** The traces of the policy are exactly those in which every pick gives the frame with the oldest
      K-th most recent access, frames with fewer than K accesses first. */
  lemma {:induction false} TracesExact(k: nat, es: Trace)
    requires k >= 1
    ensures Happened(k, es) <==> Legal(k, es)
  {
    if es != [] {
      TracesExact(k, Init(es));
      if Happened(k, Init(es)) && Last(es).Pick? {
        RunAgrees(k, Init(es));
        VictimIsDue(Run(k, Init(es)), k, Init(es));
        if Due(k, Init(es), Last(es).victim) {
          DueIsUnique(k, Init(es), Last(es).victim, Victim(Run(k, Init(es))));
        }
      }
    }
  }
}
