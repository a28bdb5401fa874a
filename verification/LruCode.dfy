/** The replacement policy object. */
module LruCode {
  import opened Wrappers
  import opened LruModel

  class LruK {
    const k: nat
    var clock: nat
    var history: map<FrameId, seq<nat>>
    var evictable: seq<FrameId>

    function State(): Lru
      reads this
    {
      Lru(k, clock, history, evictable)
    }

    constructor (k: nat)
      requires k >= 1
      ensures State() == Lru(k, 0, map[], [])
    {
      this.k, clock, history, evictable := k, 0, map[], [];
    }

    method RecordAccess(f: FrameId)
      modifies this
      ensures State() == Recorded(old(State()), f)
    {
      clock := clock + 1;
      if f !in history {
        history := history[f := []];
      }
      history := history[f := [clock] + history[f]];
      if |history[f]| > k {
        history := history[f := history[f][..|history[f]| - 1]];
      }
    }

    method MarkEvictable(f: FrameId)
      modifies this`evictable
      ensures State() == Marked(old(State()), f)
    {
      evictable := evictable + [f];
    }

    method Forget(f: FrameId)
      modifies this
      ensures State() == Forgotten(old(State()), f)
    {
      history := history - {f};
      var kept: seq<FrameId> := [];
      for i := 0 to |evictable|
        invariant kept == Dropping(evictable[..i], f)
      {
        assert evictable[..i + 1][..i] == evictable[..i];
        if evictable[i] != f {
          kept := kept + [evictable[i]];
        }
      }
      assert evictable[..|evictable|] == evictable;
      evictable := kept;
    }

    /** The scan over the evictable frames. */
    method BestVictim() returns (r: Option<FrameId>)
      requires forall f: FrameId :: f in history ==> history[f] != []
      ensures r == Victim(State())
    {
      var bestScan: Option<FrameId>, bestK: Option<FrameId> := None, None;
      for i := 0 to |evictable|
        invariant bestScan == Best(State(), evictable[..i], false) && bestK == Best(State(), evictable[..i], true)
      {
        assert evictable[..i + 1][..i] == evictable[..i];
        var f := evictable[i];
        if f in history {
          var oldest := history[f][|history[f]| - 1];
          if |history[f]| < k {
            if bestScan.None? || oldest < history[bestScan.value][|history[bestScan.value]| - 1] {
              bestScan := Some(f);
            }
          } else if bestK.None? || oldest < history[bestK.value][|history[bestK.value]| - 1] {
            bestK := Some(f);
          }
        }
      }
      assert evictable[..|evictable|] == evictable;
      r := if bestScan.Some? then bestScan else bestK;
    }

    /** Picks the victim of the policy and stops tracking it. */
    method PickVictim() returns (r: Option<FrameId>)
      requires forall f: FrameId :: f in history ==> history[f] != []
      modifies this
      ensures r == Victim(old(State()))
      ensures State() == if r.Some? then Taken(old(State()), r.value) else old(State())
    {
      r := BestVictim();
      if r.Some? {
        evictable := RemoveFirst(evictable, r.value);
        history := history - {r.value};
      }
    }
  }

  method RemoveFirst(es: seq<FrameId>, f: FrameId) returns (r: seq<FrameId>)
    requires f in es
    ensures r == WithoutOne(es, f)
  {
    var pos := 0;
    while es[pos] != f
      invariant pos < |es| && f !in es[..pos]
      decreases |es| - pos
    {
      assert es == es[..pos] + [es[pos]] + es[pos + 1..];
      pos := pos + 1;
    }
    FirstIs(es, f, pos);
    r := es[pos := es[|es| - 1]][..|es| - 1];
  }

  lemma {:induction false} FirstIs(es: seq<FrameId>, f: FrameId, pos: nat)
    requires pos < |es| && es[pos] == f && f !in es[..pos]
    ensures f in es && FirstAt(es, f) == pos
  {
    if pos > 0 {
      assert es[0] in es[..pos];
      assert es[1..][..pos - 1] == es[..pos][1..];
      FirstIs(es[1..], f, pos - 1);
    }
  }
}
