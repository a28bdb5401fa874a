/** Merging two filters with `and`, as the rewrite does: exactly when it keeps the meaning. */
module PushdownMerge {
  import opened PlanModel
  import opened PredicateLogic
  import opened PushdownProofs

  function Merged(q: Predicate, p: Predicate): Predicate { q + ["and"] + p }

  // ---------------------------------------------------------------- the disjuncts of a merged predicate

  /** The last disjunct of the inner predicate and the first of the outer one grow together. */
  function Glued(a: seq<Predicate>, b: seq<Predicate>): seq<Predicate>
    requires a != [] && b != []
  {
    a[..|a| - 1] + [Merged(a[|a| - 1], b[0])] + b[1..]
  }

  lemma {:induction false} SplitOrSome(run: seq<Word>, p: Predicate)
    ensures SplitOrFrom(run, p) != []
    decreases p
  {
    if p != [] && !IsOr(p[0]) {
      SplitOrSome(run + [p[0]], p[1..]);
    }
  }

  lemma {:induction false} SplitOrRun(run: seq<Word>, p: Predicate, front: seq<Word>)
    ensures SplitOrFrom(run, p) != [] && SplitOrFrom(front + run, p) == [front + SplitOrFrom(run, p)[0]] + SplitOrFrom(run, p)[1..]
    decreases p
  {
    SplitOrSome(run, p);
    if p == [] || IsOr(p[0]) {
      assert p != [] ==> ([run] + SplitOrFrom([], p[1..]))[1..] == SplitOrFrom([], p[1..]);
    } else {
      SplitOrRun(run + [p[0]], p[1..], front);
      assert front + (run + [p[0]]) == front + run + [p[0]];
    }
  }

  lemma {:induction false} SplitOrMerged(run: seq<Word>, q: Predicate, p: Predicate)
    ensures SplitOrFrom(run, q) != [] && Disjuncts(p) != []
    ensures SplitOrFrom(run, Merged(q, p)) == Glued(SplitOrFrom(run, q), Disjuncts(p))
    decreases q
  {
    SplitOrSome(run, q);
    SplitOrSome([], p);
    var whole := Merged(q, p);
    if q == [] {
      assert whole[1..] == p;
      SplitOrRun([], p, run + ["and"]);
      assert run + ["and"] + [] == run + ["and"];
    } else {
      assert whole[1..] == Merged(q[1..], p);
      if IsOr(q[0]) {
        SplitOrMerged([], q[1..], p);
        GluedCons(run, Disjuncts(q[1..]), Disjuncts(p));
      } else {
        SplitOrMerged(run + [q[0]], q[1..], p);
      }
    }
  }

  lemma GluedCons(d: Predicate, a: seq<Predicate>, b: seq<Predicate>)
    requires a != [] && b != []
    ensures Glued([d] + a, b) == [d] + Glued(a, b)
  {
    assert ([d] + a)[..|a|] == [d] + a[..|a| - 1];
  }

  lemma TermsMerged(q: Predicate, p: Predicate)
    ensures Terms(Merged(q, p)) == Terms(q) + Terms(p)
  {
    SplitMerged([], q, p);
  }

  // ---------------------------------------------------------------- the condition

  /** Every disjunct of the inner predicate but its last has all conjuncts of some outer disjunct,
      and every disjunct of the outer predicate but its first all conjuncts of some inner one. */
  predicate Mergeable(q: Predicate, p: Predicate) {
    && (forall i :: 0 <= i < |Disjuncts(q)| - 1 ==> Admits(Terms(Disjuncts(q)[i]), p))
    && (forall j :: 0 < j < |Disjuncts(p)| ==> Admits(Terms(Disjuncts(p)[j]), q))
  }

  lemma PairAdmits(known: set<Conjunct>, q: Predicate, p: Predicate)
    ensures AdmitsAll(known, [q, p]) <==> Admits(known, q) && Admits(known, p)
  {
    assert [q, p][0] == q && [q, p][1] == p;
  }

  lemma EntailsOne(known: set<Conjunct>, p: Predicate, qs: seq<Predicate>)
    ensures EntailsWith(known, [p], qs) <==> forall d :: d in Disjuncts(p) ==> AdmitsAll(known + Terms(d), qs)
  {
    assert [p][1..] == [];
  }

  lemma AdmitsMore(known: set<Conjunct>, more: set<Conjunct>, p: Predicate)
    requires Admits(known, p) && known <= more
    ensures Admits(more, p)
  {
    var d :| d in Disjuncts(p) && Terms(d) <= known;
    assert Terms(d) <= more;
  }

  lemma AdmitsOwn(p: Predicate, d: Predicate)
    requires d in Disjuncts(p)
    ensures Admits(Terms(d), p)
  {
  }

  /** What the merged filter's disjuncts admit of the two predicates. */
  lemma GluedAdmits(q: Predicate, p: Predicate, k: nat)
    requires Disjuncts(q) != [] && Disjuncts(p) != []
    requires k < |Glued(Disjuncts(q), Disjuncts(p))|
    ensures var a, b := Disjuncts(q), Disjuncts(p);
            var d := Glued(a, b)[k];
            AdmitsAll(Terms(d), [q, p]) <==>
            if k < |a| - 1 then Admits(Terms(a[k]), p)
            else if k == |a| - 1 then true
            else Admits(Terms(b[k - |a| + 1]), q)
  {
    var a, b := Disjuncts(q), Disjuncts(p);
    var d := Glued(a, b)[k];
    PairAdmits(Terms(d), q, p);
    if k < |a| - 1 {
      assert d == a[k];
      AdmitsOwn(q, d);
    } else if k == |a| - 1 {
      assert d == Merged(a[k], b[0]);
      TermsMerged(a[k], b[0]);
      AdmitsOwn(q, a[k]);
      AdmitsOwn(p, b[0]);
      AdmitsMore(Terms(a[k]), Terms(d), q);
      AdmitsMore(Terms(b[0]), Terms(d), p);
    } else {
      assert d == b[k - |a| + 1];
      AdmitsOwn(p, d);
    }
  }

  lemma MergedEntailsBoth(q: Predicate, p: Predicate)
    ensures Entails([Merged(q, p)], [q, p]) <==> Mergeable(q, p)
  {
    var a, b := Disjuncts(q), Disjuncts(p);
    SplitOrMerged([], q, p);
    var glued := Glued(a, b);
    assert Disjuncts(Merged(q, p)) == glued && |glued| == |a| + |b| - 1;
    EntailsOne({}, Merged(q, p), [q, p]);
    forall k: nat | k < |glued| ensures {} + Terms(glued[k]) == Terms(glued[k]) {
    }
    forall k: nat | k < |glued|
      ensures AdmitsAll(Terms(glued[k]), [q, p]) <==>
              if k < |a| - 1 then Admits(Terms(a[k]), p) else if k == |a| - 1 then true else Admits(Terms(b[k - |a| + 1]), q)
    {
      GluedAdmits(q, p, k);
    }
    if Mergeable(q, p) {
      forall d | d in glued ensures AdmitsAll({} + Terms(d), [q, p]) {
        var k: nat :| k < |glued| && glued[k] == d;
      }
    }
    if Entails([Merged(q, p)], [q, p]) {
      forall i | 0 <= i < |a| - 1 ensures Admits(Terms(a[i]), p) {
        assert glued[i] in glued;
      }
      forall j | 0 < j < |b| ensures Admits(Terms(b[j]), q) {
        var k: nat := |a| - 1 + j;
        assert glued[k] in glued && k - |a| + 1 == j;
      }
    }
  }

  /** The merged filter never rejects a row that both filters admit. */
  lemma BothEntailMerged(q: Predicate, p: Predicate)
    ensures Entails([q, p], [Merged(q, p)])
  {
    var a, b := Disjuncts(q), Disjuncts(p);
    SplitOrMerged([], q, p);
    var m := Merged(q, p);
    assert [q, p][1..] == [p];
    forall d | d in a ensures EntailsWith({} + Terms(d), [p], [m]) {
      EntailsOne({} + Terms(d), p, [m]);
      forall e | e in b ensures AdmitsAll({} + Terms(d) + Terms(e), [m]) {
        GluedTakes(q, p, d, e);
        assert {} + Terms(d) + Terms(e) == Terms(d) + Terms(e);
      }
    }
  }

  lemma GluedTakes(q: Predicate, p: Predicate, d: Predicate, e: Predicate)
    requires d in Disjuncts(q) && e in Disjuncts(p)
    ensures Admits(Terms(d) + Terms(e), Merged(q, p))
  {
    var a, b := Disjuncts(q), Disjuncts(p);
    SplitOrMerged([], q, p);
    var glued := Glued(a, b);
    var i: nat :| i < |a| && a[i] == d;
    var j: nat :| j < |b| && b[j] == e;
    var both := Terms(d) + Terms(e);
    if i < |a| - 1 {
      assert glued[i] == d && Terms(d) <= both;
    } else if j > 0 {
      assert glued[|a| - 1 + j] == e && Terms(e) <= both;
    } else {
      assert glued[i] == Merged(d, e);
      TermsMerged(d, e);
    }
  }

  /** Merging is right under every meaning exactly if the predicates are mergeable. */
  lemma MergeExact(q: Predicate, p: Predicate)
    ensures Same([q, p], [Merged(q, p)]) <==> Mergeable(q, p)
  {
    MergedEntailsBoth(q, p);
    BothEntailMerged(q, p);
  }
}
