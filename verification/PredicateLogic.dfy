/** What follows from a predicate for every meaning of its conjuncts: a condition on words alone. */
module PredicateLogic {
  import opened PlanModel

  // ---------------------------------------------------------------- predicates as formulas

  function Disjuncts(p: Predicate): seq<Predicate> { SplitOrFrom([], p) }

  function Terms(d: Predicate): set<Conjunct> { set c | c in SplitAnd(d) }

  /** Some disjunct has only known conjuncts. */
  predicate Admits(known: set<Conjunct>, p: Predicate) {
    exists d :: d in Disjuncts(p) && Terms(d) <= known
  }

  predicate AdmitsAll(known: set<Conjunct>, ps: seq<Predicate>) {
    forall p :: p in ps ==> Admits(known, p)
  }

  /** Whichever disjunct of each of `ps` is taken, its conjuncts and `known` are enough for all of `qs`. */
  predicate EntailsWith(known: set<Conjunct>, ps: seq<Predicate>, qs: seq<Predicate>)
    decreases ps
  {
    if ps == [] then AdmitsAll(known, qs)
    else forall d :: d in Disjuncts(ps[0]) ==> EntailsWith(known + Terms(d), ps[1..], qs)
  }

  predicate Entails(ps: seq<Predicate>, qs: seq<Predicate>) { EntailsWith({}, ps, qs) }

  predicate Same(ps: seq<Predicate>, qs: seq<Predicate>) { Entails(ps, qs) && Entails(qs, ps) }

  // ---------------------------------------------------------------- meaning

  ghost predicate Meets(s: Semantics, ps: seq<Predicate>, row: Row) {
    forall p :: p in ps ==> Holds(s, p, row)
  }

  ghost predicate Knows(s: Semantics, known: set<Conjunct>, row: Row) {
    forall c :: c in known ==> s.holds(c, row)
  }

  lemma {:induction false} AllHoldIsKnown(s: Semantics, cs: seq<Conjunct>, row: Row)
    ensures AllHold(s, cs, row) <==> forall c :: c in cs ==> s.holds(c, row)
  {
    if cs != [] {
      AllHoldIsKnown(s, cs[1..], row);
      assert cs == [cs[0]] + cs[1..];
    }
  }

  lemma DisjunctHolds(s: Semantics, d: Predicate, row: Row)
    ensures AllHold(s, SplitAnd(d), row) <==> Knows(s, Terms(d), row)
  {
    AllHoldIsKnown(s, SplitAnd(d), row);
  }

  lemma AdmittedHolds(s: Semantics, known: set<Conjunct>, p: Predicate, row: Row)
    requires Knows(s, known, row) && Admits(known, p)
    ensures Holds(s, p, row)
  {
    var d :| d in Disjuncts(p) && Terms(d) <= known;
    DisjunctHolds(s, d, row);
  }

  lemma {:induction false} EntailedHold(s: Semantics, known: set<Conjunct>, ps: seq<Predicate>, qs: seq<Predicate>, row: Row)
    requires EntailsWith(known, ps, qs) && Knows(s, known, row) && Meets(s, ps, row)
    ensures Meets(s, qs, row)
    decreases ps
  {
    if ps == [] {
      forall q | q in qs ensures Holds(s, q, row) {
        AdmittedHolds(s, known, q, row);
      }
    } else {
      assert ps[0] in ps;
      var d :| d in Disjuncts(ps[0]) && AllHold(s, SplitAnd(d), row);
      DisjunctHolds(s, d, row);
      EntailedHold(s, known + Terms(d), ps[1..], qs, row);
    }
  }

  // ---------------------------------------------------------------- a meaning that decides

  /** A database with one empty row everywhere, in which just the conjuncts of `known` hold. */
  function Deciding(known: set<Conjunct>): Semantics {
    Semantics((t, p) => [[]], (c, row) => c in known, (c, l, r) => true,
              (cols, rows) => [[]], (col, rows) => [[]], (k, aggs, rows) => [[]], (n, rows) => [[]])
  }

  lemma DecidingIsNamespaced(known: set<Conjunct>)
    ensures Namespaced(Deciding(known))
  {
  }

  lemma DecidingHolds(known: set<Conjunct>, p: Predicate, row: Row)
    ensures Holds(Deciding(known), p, row) <==> Admits(known, p)
  {
    var s := Deciding(known);
    forall d | d in Disjuncts(p) ensures AllHold(s, SplitAnd(d), row) <==> Terms(d) <= known {
      DisjunctHolds(s, d, row);
    }
  }

  lemma DecidingMeets(known: set<Conjunct>, ps: seq<Predicate>, row: Row)
    ensures Meets(Deciding(known), ps, row) <==> AdmitsAll(known, ps)
  {
    forall p | p in ps ensures Holds(Deciding(known), p, row) <==> Admits(known, p) {
      DecidingHolds(known, p, row);
    }
  }

  /** If the condition fails, some choice of known conjuncts tells the predicates apart. */
  lemma {:induction false} Refuted(known: set<Conjunct>, ps: seq<Predicate>, qs: seq<Predicate>) returns (more: set<Conjunct>)
    requires !EntailsWith(known, ps, qs)
    ensures known <= more && AdmitsAll(more, ps) && !AdmitsAll(more, qs)
    decreases ps
  {
    if ps == [] {
      more := known;
    } else {
      var d :| d in Disjuncts(ps[0]) && !EntailsWith(known + Terms(d), ps[1..], qs);
      more := Refuted(known + Terms(d), ps[1..], qs);
      assert Terms(d) <= more;
      assert ps == [ps[0]] + ps[1..];
    }
  }

  /** The condition on words is exact: it says what holds under every meaning. */
  lemma EntailsExact(ps: seq<Predicate>, qs: seq<Predicate>)
    ensures Entails(ps, qs) <==>
            forall s: Semantics, row: Row :: Namespaced(s) && Meets(s, ps, row) ==> Meets(s, qs, row)
  {
    if Entails(ps, qs) {
      forall s: Semantics, row: Row | Namespaced(s) && Meets(s, ps, row) ensures Meets(s, qs, row) {
        EntailedHold(s, {}, ps, qs, row);
      }
    } else {
      var known := Refuted({}, ps, qs);
      DecidingIsNamespaced(known);
      DecidingMeets(known, ps, []);
      DecidingMeets(known, qs, []);
    }
  }

  lemma SameMeets(s: Semantics, ps: seq<Predicate>, qs: seq<Predicate>, row: Row)
    requires Same(ps, qs)
    ensures Meets(s, ps, row) <==> Meets(s, qs, row)
  {
    if Meets(s, ps, row) {
      EntailedHold(s, {}, ps, qs, row);
    }
    if Meets(s, qs, row) {
      EntailedHold(s, {}, qs, ps, row);
    }
  }

  lemma EntailsItself(ps: seq<Predicate>)
    ensures Same(ps, ps)
  {
    EntailsExact(ps, ps);
  }
}
