/** The LRU-K replacement policy as a value: access histories and the list of evictable frames. */
module LruModel {
  import opened Wrappers

  type FrameId = nat

  /** Histories are newest first and hold at most `k` access times. */
  datatype Lru = Lru(k: nat, clock: nat, history: map<FrameId, seq<nat>>, evictable: seq<FrameId>)

  function Recorded(l: Lru, f: FrameId): Lru {
    var now := l.clock + 1;
    var hist := [now] + if f in l.history then l.history[f] else [];
    l.(clock := now, history := l.history[f := if |hist| > l.k then hist[..|hist| - 1] else hist])
  }

  function Marked(l: Lru, f: FrameId): Lru { l.(evictable := l.evictable + [f]) }

  function Dropping(es: seq<FrameId>, f: FrameId): (r: seq<FrameId>)
    ensures forall x :: x in r <==> x in es && x != f
  {
    if es == [] then []
    else if es[|es| - 1] == f then Dropping(es[..|es| - 1], f)
    else Dropping(es[..|es| - 1], f) + [es[|es| - 1]]
  }

  function Forgotten(l: Lru, f: FrameId): Lru {
    l.(history := l.history - {f}, evictable := Dropping(l.evictable, f))
  }

  /** A frame with `k` recorded accesses has proven itself hot. */
  predicate Hot(l: Lru, f: FrameId) { f in l.history && |l.history[f]| >= l.k }
  predicate Cold(l: Lru, f: FrameId) { f in l.history && 0 < |l.history[f]| < l.k }

  /** The time of the oldest access kept. */
  function Oldest(l: Lru, f: FrameId): nat
    requires f in l.history && l.history[f] != []
  {
    l.history[f][|l.history[f]| - 1]
  }

  predicate Candidate(l: Lru, f: FrameId, hot: bool) {
    f in l.history && l.history[f] != [] && ((|l.history[f]| >= l.k) == hot)
  }

  /** The first candidate in `es` with the oldest access. */
  function Best(l: Lru, es: seq<FrameId>, hot: bool): (r: Option<FrameId>)
    ensures r.Some? ==> r.value in es && Candidate(l, r.value, hot)
    ensures r.Some? ==> forall f: FrameId :: f in es && Candidate(l, f, hot) ==> Oldest(l, r.value) <= Oldest(l, f)
    ensures r.None? ==> forall f: FrameId :: f in es ==> !Candidate(l, f, hot)
  {
    if es == [] then None
    else
      var best := Best(l, es[..|es| - 1], hot);
      var f := es[|es| - 1];
      assert es == es[..|es| - 1] + [f];
      if Candidate(l, f, hot) && (best.None? || Oldest(l, f) < Oldest(l, best.value)) then Some(f) else best
  }

  /** Frames that are not hot go first; among equals, the one with the oldest access kept. */
  function Victim(l: Lru): (r: Option<FrameId>)
    ensures r.None? <==> forall f: FrameId :: f in l.evictable ==> !Candidate(l, f, false) && !Candidate(l, f, true)
    ensures r.Some? ==> r.value in l.evictable && r.value in l.history && l.history[r.value] != []
    ensures r.Some? && Candidate(l, r.value, true) ==> forall f: FrameId :: f in l.evictable ==> !Candidate(l, f, false)
    ensures r.Some? ==> forall f: FrameId :: f in l.evictable && Candidate(l, f, |l.history[r.value]| >= l.k) ==>
                          Oldest(l, r.value) <= Oldest(l, f)
  {
    var scan := Best(l, l.evictable, false);
    if scan.Some? then scan else Best(l, l.evictable, true)
  }

  function SwapRemove(es: seq<FrameId>, pos: nat): (r: seq<FrameId>)
    requires pos < |es|
    ensures |r| == |es| - 1 && forall x :: x in r ==> x in es
  {
    es[pos := es[|es| - 1]][..|es| - 1]
  }

  /** Removing the first entry of `f` by moving the last entry into its place. */
  function WithoutOne(es: seq<FrameId>, f: FrameId): (r: seq<FrameId>)
    requires f in es
    ensures forall x :: x in r ==> x in es
    ensures forall x :: x in es && x != f ==> x in r
  {
    var pos := FirstAt(es, f);
    OthersStay(es, pos);
    SwapRemove(es, pos)
  }

  function FirstAt(es: seq<FrameId>, f: FrameId): (pos: nat)
    requires f in es
    ensures pos < |es| && es[pos] == f && f !in es[..pos]
  {
    if es[0] == f then 0
    else
      assert es == [es[0]] + es[1..];
      var i := FirstAt(es[1..], f);
      assert es[..1 + i] == [es[0]] + es[1..][..i];
      1 + i
  }

  lemma OthersStay(es: seq<FrameId>, pos: nat)
    requires pos < |es|
    ensures forall x :: x in es && x != es[pos] ==> x in SwapRemove(es, pos)
  {
    forall x | x in es && x != es[pos] ensures x in SwapRemove(es, pos) {
      var i :| 0 <= i < |es| && es[i] == x;
      assert SwapRemove(es, pos)[if i < |es| - 1 then i else pos] == x;
    }
  }

  /** The policy after giving up `f` as a victim. */
  function Taken(l: Lru, f: FrameId): Lru
    requires f in l.evictable
  {
    l.(evictable := WithoutOne(l.evictable, f), history := l.history - {f})
  }
}
