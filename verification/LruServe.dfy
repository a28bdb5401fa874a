/** The policy object at work: the trace it leaves behind. */
module LruServe {
  import opened Wrappers
  import opened LruModel
  import opened LruRuns
  import opened LruCode

  /** The trace does what was asked for, whatever frames its picks give. */
  predicate Answers(es: Trace, requests: Trace) {
    |es| == |requests| && forall i :: 0 <= i < |es| ==> es[i] == requests[i] || (es[i].Pick? && requests[i].Pick?)
  }

  lemma TrackedHaveTimes(l: Lru, k: nat, es: Trace)
    requires k >= 1 && Agrees(l, k, es)
    ensures forall f: FrameId :: f in l.history ==> l.history[f] != []
  {
    forall f: FrameId | f in l.history ensures l.history[f] != [] {
      assert HistoryAt(l, k, es, f);
    }
  }

  /** Serves requests in order; every pick gives the frame that is due by the trace so far. */
  method Serve(k: nat, requests: Trace) returns (es: Trace)
    requires k >= 1
    ensures Answers(es, requests) && Legal(k, es)
  {
    var lru := new LruK(k);
    es := [];
    for i := 0 to |requests|
      invariant Answers(es, requests[..i]) && Happened(k, es) && lru.State() == Run(k, es) && lru.k == k
    {
      RunAgrees(k, es);
      TrackedHaveTimes(lru.State(), k, es);
      var event := requests[i];
      match requests[i] {
        case Access(f) => lru.RecordAccess(f);
        case Mark(f) => lru.MarkEvictable(f);
        case Forget(f) => lru.Forget(f);
        case Pick(_) =>
          var victim := lru.PickVictim();
          event := Pick(victim);
      }
      AfterInit(es, event);
      es := es + [event];
    }
    assert requests[..|requests|] == requests;
    TracesExact(k, es);
  }
}
