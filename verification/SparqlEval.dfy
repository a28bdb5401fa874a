/** Basic graph patterns: an indexed nested-loop join against the declarative solution set. */
module SparqlEval {
  import opened Wrappers
  import opened RdfStore

  datatype PatternTerm = Var(name: string) | Const(term: Term)

  datatype Pattern = Pattern(s: PatternTerm, p: PatternTerm, o: PatternTerm)

  type Binding = map<string, Term>

  // ---------------------------------------------------------------- solutions

  function VarsOf(pt: PatternTerm): set<string> { if pt.Var? then {pt.name} else {} }

  function Vars(pat: Pattern): set<string> { VarsOf(pat.s) + VarsOf(pat.p) + VarsOf(pat.o) }

  function AllVars(pats: seq<Pattern>): set<string> {
    if pats == [] then {} else AllVars(pats[..|pats| - 1]) + Vars(pats[|pats| - 1])
  }

  function Value(pt: PatternTerm, mu: Binding): Term
    requires VarsOf(pt) <= mu.Keys
  {
    if pt.Var? then mu[pt.name] else pt.term
  }

  /** The triple a pattern becomes under a solution mapping. */
  function Instance(pat: Pattern, mu: Binding): Triple
    requires Vars(pat) <= mu.Keys
  {
    Triple(Value(pat.s, mu), Value(pat.p, mu), Value(pat.o, mu))
  }

  /** Every pattern becomes a stored triple, and just the variables of the patterns are bound. */
  ghost predicate Solution(mu: Binding, pats: seq<Pattern>, triples: set<Triple>) {
    mu.Keys == AllVars(pats) && forall i :: 0 <= i < |pats| ==> Vars(pats[i]) <= mu.Keys && Instance(pats[i], mu) in triples
  }

  // ---------------------------------------------------------------- matching one pattern

  function Lookup(pt: PatternTerm, b: Binding): Option<Term> {
    match pt
    case Const(term) => Some(term)
    case Var(name) => if name in b then Some(b[name]) else None
  }

  /** Binding one position; constants have been checked by the lookup. */
  function BindAt(pt: PatternTerm, term: Term, b: Binding, m: Binding): Option<Binding> {
    match pt
    case Const(_) => Some(m)
    case Var(name) =>
      if name in b then (if b[name] == term then Some(m) else None)
      else if name in m then (if m[name] == term then Some(m) else None)
      else Some(m[name := term])
  }

  function Bind(pat: Pattern, t: Triple, b: Binding): Option<Binding> {
    match BindAt(pat.s, t.s, b, map[])
    case None => None
    case Some(m1) =>
      match BindAt(pat.p, t.p, b, m1)
      case None => None
      case Some(m2) => BindAt(pat.o, t.o, b, m2)
  }

  predicate Meets(pt: PatternTerm, term: Term, b: Binding) { Lookup(pt, b).Some? ==> term == Lookup(pt, b).value }

  predicate Disjoint(b: Binding, m: Binding) { b.Keys !! m.Keys }

  lemma BindAtWorks(pt: PatternTerm, term: Term, b: Binding, m: Binding)
    requires Disjoint(b, m) && Meets(pt, term, b)
    ensures var r := BindAt(pt, term, b, m);
            && (r.Some? ==> Disjoint(b, r.value) && m.Keys <= r.value.Keys && r.value.Keys == m.Keys + (VarsOf(pt) - b.Keys) &&
                            (forall x :: x in m ==> r.value[x] == m[x]) &&
                            VarsOf(pt) <= (b + r.value).Keys && Value(pt, b + r.value) == term)
            && (r.None? ==> VarsOf(pt) <= m.Keys && Value(pt, m) != term)
  {
  }

  /** Once a value is settled, binding further positions does not change it. */
  lemma ValueStays(pt: PatternTerm, mu: Binding, nu: Binding)
    requires VarsOf(pt) <= mu.Keys && mu.Keys <= nu.Keys && forall x :: x in mu ==> nu[x] == mu[x]
    ensures Value(pt, nu) == Value(pt, mu)
  {
  }

  /** If binding succeeds, it binds the new variables such that the pattern becomes the triple. */
  lemma BindWorks(pat: Pattern, t: Triple, b: Binding)
    requires Fits(t, Lookup(pat.s, b), Lookup(pat.p, b), Lookup(pat.o, b)) && Bind(pat, t, b).Some?
    ensures var m := Bind(pat, t, b).value;
            m.Keys == Vars(pat) - b.Keys && Vars(pat) <= (b + m).Keys && Instance(pat, b + m) == t
  {
    var m1 := BindAt(pat.s, t.s, b, map[]).value;
    var m2 := BindAt(pat.p, t.p, b, m1).value;
    var m3 := BindAt(pat.o, t.o, b, m2).value;
    BindAtWorks(pat.s, t.s, b, map[]);
    BindAtWorks(pat.p, t.p, b, m1);
    BindAtWorks(pat.o, t.o, b, m2);
    ValueStays(pat.s, b + m1, b + m3);
    ValueStays(pat.p, b + m2, b + m3);
  }

  /** Any mapping that extends `b` and turns the pattern into the triple also contains what is bound. */
  lemma BindAtComplete(pt: PatternTerm, term: Term, b: Binding, m: Binding, mu: Binding)
    requires b.Keys <= mu.Keys && m.Keys <= mu.Keys && (forall x :: x in b ==> mu[x] == b[x])
    requires (forall x :: x in m ==> mu[x] == m[x]) && VarsOf(pt) <= mu.Keys && Value(pt, mu) == term
    ensures var r := BindAt(pt, term, b, m);
            r.Some? && r.value.Keys <= mu.Keys && forall x :: x in r.value ==> mu[x] == r.value[x]
  {
  }

  lemma BindComplete(pat: Pattern, t: Triple, b: Binding, mu: Binding)
    requires b.Keys <= mu.Keys && (forall x :: x in b ==> mu[x] == b[x])
    requires mu.Keys == b.Keys + Vars(pat) && Instance(pat, mu) == t
    ensures Fits(t, Lookup(pat.s, b), Lookup(pat.p, b), Lookup(pat.o, b))
    ensures Bind(pat, t, b).Some? && b + Bind(pat, t, b).value == mu
  {
    BindAtComplete(pat.s, t.s, b, map[], mu);
    var m1 := BindAt(pat.s, t.s, b, map[]).value;
    BindAtComplete(pat.p, t.p, b, m1, mu);
    var m2 := BindAt(pat.p, t.p, b, m1).value;
    BindAtComplete(pat.o, t.o, b, m2, mu);
    BindWorks(pat, t, b);
  }

  /** `mu` extends `b` by just the variables of the pattern, which becomes a stored triple. */
  ghost predicate Extends(mu: Binding, b: Binding, pat: Pattern, triples: set<Triple>) {
    && mu.Keys == b.Keys + Vars(pat) && (forall x :: x in b ==> mu[x] == b[x]) && Instance(pat, mu) in triples
  }

  /** All extensions of `b` by the pattern, each once. */
  ghost predicate Extensions(r: seq<Binding>, b: Binding, pat: Pattern, triples: set<Triple>) {
    Distinct(r) && forall mu: Binding :: mu in r <==> Extends(mu, b, pat, triples)
  }

  method EvaluatePatternWithBinding(pat: Pattern, store: TripleStore, b: Binding) returns (r: seq<Binding>)
    requires store.Valid()
    ensures Extensions(r, b, pat, store.triples)
  {
    var matches := store.MatchPattern(Lookup(pat.s, b), Lookup(pat.p, b), Lookup(pat.o, b));
    r := [];
    for i := 0 to |matches|
      invariant Distinct(r) && forall mu: Binding :: mu in r <==> ExtendsBy(mu, b, pat, matches[..i])
    {
      assert matches[i] in matches && matches[i] !in matches[..i];
      assert matches[..i + 1] == matches[..i] + [matches[i]];
      ExtensionStep(b, pat, matches[..i], matches[i]);
      var m := Bind(pat, matches[i], b);
      if m.Some? {
        r := r + [b + m.value];
      }
    }
    assert matches[..|matches|] == matches;
    forall mu: Binding ensures mu in r <==> Extends(mu, b, pat, store.triples) {
      if Extends(mu, b, pat, store.triples) {
        BindComplete(pat, Instance(pat, mu), b, mu);
      }
    }
  }

  ghost predicate ExtendsBy(mu: Binding, b: Binding, pat: Pattern, ts: seq<Triple>) {
    mu.Keys == b.Keys + Vars(pat) && (forall x :: x in b ==> mu[x] == b[x]) && Instance(pat, mu) in ts
  }

  /** One more matching triple adds at most one extension, which is new. */
  lemma ExtensionStep(b: Binding, pat: Pattern, ts: seq<Triple>, t: Triple)
    requires Fits(t, Lookup(pat.s, b), Lookup(pat.p, b), Lookup(pat.o, b)) && t !in ts
    ensures var m := Bind(pat, t, b);
            && (m.Some? ==> !ExtendsBy(b + m.value, b, pat, ts))
            && forall mu: Binding :: ExtendsBy(mu, b, pat, ts + [t]) <==>
                 ExtendsBy(mu, b, pat, ts) || (m.Some? && mu == b + m.value)
  {
    var m := Bind(pat, t, b);
    if m.Some? {
      BindWorks(pat, t, b);
    }
    forall mu: Binding
      ensures ExtendsBy(mu, b, pat, ts + [t]) <==> ExtendsBy(mu, b, pat, ts) || (m.Some? && mu == b + m.value)
    {
      if mu.Keys == b.Keys + Vars(pat) && (forall x :: x in b ==> mu[x] == b[x]) && Instance(pat, mu) == t {
        BindComplete(pat, t, b, mu);
      }
    }
  }

  // ---------------------------------------------------------------- joining the patterns

  ghost predicate AllSolutions(r: seq<Binding>, pats: seq<Pattern>, triples: set<Triple>) {
    Distinct(r) && forall mu: Binding :: mu in r <==> Solution(mu, pats, triples)
  }

  /** What is left of a mapping when only some variables are kept. */
  function Restricted(mu: Binding, vars: set<string>): Binding { map x | x in mu && x in vars :: mu[x] }

  /** A solution of more patterns is a solution of fewer, extended. */
  lemma SolutionSplits(mu: Binding, pats: seq<Pattern>, pat: Pattern, triples: set<Triple>)
    ensures var b := Restricted(mu, AllVars(pats));
            Solution(mu, pats + [pat], triples) <==> Solution(b, pats, triples) && Extends(mu, b, pat, triples)
  {
    var b, all := Restricted(mu, AllVars(pats)), pats + [pat];
    assert all[..|pats|] == pats;
    if Solution(mu, all, triples) {
      forall i | 0 <= i < |pats| ensures Vars(pats[i]) <= b.Keys && Instance(pats[i], b) in triples {
        assert all[i] == pats[i];
        VarsAmong(pats, i);
      }
      assert all[|pats|] == pat;
    }
    if Solution(b, pats, triples) && Extends(mu, b, pat, triples) {
      forall i | 0 <= i < |all| ensures Vars(all[i]) <= mu.Keys && Instance(all[i], mu) in triples {
        if i < |pats| {
          assert all[i] == pats[i];
        }
      }
    }
  }

  lemma {:induction false} VarsAmong(pats: seq<Pattern>, i: nat)
    requires i < |pats|
    ensures Vars(pats[i]) <= AllVars(pats)
  {
    if i < |pats| - 1 {
      VarsAmong(pats[..|pats| - 1], i);
    }
  }

  /** Rows with different parts before the join are different after it. */
  lemma ExtensionsApart(mu: Binding, a: Binding, b: Binding, pat: Pattern, triples: set<Triple>)
    requires a.Keys == b.Keys && Extends(mu, a, pat, triples) && Extends(mu, b, pat, triples)
    ensures a == b
  {
  }

  lemma ConcatDistinct(r: seq<Binding>, more: seq<Binding>)
    requires Distinct(r) && Distinct(more) && forall mu: Binding :: mu in more ==> mu !in r
    ensures Distinct(r + more)
  {
    forall i, j | 0 <= i < j < |r + more| ensures (r + more)[i] != (r + more)[j] {
      if i < |r| <= j {
        assert (r + more)[j] in more && (r + more)[i] in r;
      }
    }
  }

  /** The join of the rows so far with one more pattern. */
  method JoinPattern(rows: seq<Binding>, pat: Pattern, store: TripleStore, ghost pats: seq<Pattern>) returns (next: seq<Binding>)
    requires store.Valid() && AllSolutions(rows, pats, store.triples)
    ensures AllSolutions(next, pats + [pat], store.triples)
  {
    next := [];
    for i := 0 to |rows|
      invariant Distinct(next) && forall mu: Binding :: mu in next <==> FromRows(mu, rows[..i], pat, store.triples)
    {
      assert rows[..i + 1] == rows[..i] + [rows[i]];
      var more := EvaluatePatternWithBinding(pat, store, rows[i]);
      RowsApart(rows, i, pats, pat, store.triples);
      ConcatDistinct(next, more);
      next := next + more;
    }
    assert rows[..|rows|] == rows;
    forall mu: Binding ensures mu in next <==> Solution(mu, pats + [pat], store.triples) {
      SolutionSplits(mu, pats, pat, store.triples);
      FromRowsIsSplit(mu, rows, pats, pat, store.triples);
    }
  }

  ghost predicate FromRows(mu: Binding, rows: seq<Binding>, pat: Pattern, triples: set<Triple>) {
    exists i :: 0 <= i < |rows| && Extends(mu, rows[i], pat, triples)
  }

  lemma RowsApart(rows: seq<Binding>, i: nat, pats: seq<Pattern>, pat: Pattern, triples: set<Triple>)
    requires i < |rows| && AllSolutions(rows, pats, triples)
    ensures forall mu: Binding :: Extends(mu, rows[i], pat, triples) ==> !FromRows(mu, rows[..i], pat, triples)
    ensures forall mu: Binding :: FromRows(mu, rows[..i + 1], pat, triples) <==>
              FromRows(mu, rows[..i], pat, triples) || Extends(mu, rows[i], pat, triples)
  {
    forall mu: Binding, j | Extends(mu, rows[i], pat, triples) && 0 <= j < i ensures !Extends(mu, rows[j], pat, triples) {
      assert rows[i] in rows && rows[j] in rows;
      assert Solution(rows[i], pats, triples) && Solution(rows[j], pats, triples);
      if Extends(mu, rows[j], pat, triples) {
        ExtensionsApart(mu, rows[i], rows[j], pat, triples);
      }
    }
    forall mu: Binding
      ensures FromRows(mu, rows[..i + 1], pat, triples) <==>
              FromRows(mu, rows[..i], pat, triples) || Extends(mu, rows[i], pat, triples)
    {
      if Extends(mu, rows[i], pat, triples) {
        assert rows[..i + 1][i] == rows[i];
      }
      if FromRows(mu, rows[..i], pat, triples) {
        var j :| 0 <= j < i && Extends(mu, rows[..i][j], pat, triples);
        assert rows[..i + 1][j] == rows[..i][j];
      }
    }
  }

  lemma FromRowsIsSplit(mu: Binding, rows: seq<Binding>, pats: seq<Pattern>, pat: Pattern, triples: set<Triple>)
    requires AllSolutions(rows, pats, triples)
    ensures var b := Restricted(mu, AllVars(pats));
            FromRows(mu, rows, pat, triples) <==> Solution(b, pats, triples) && Extends(mu, b, pat, triples)
  {
    var b := Restricted(mu, AllVars(pats));
    if FromRows(mu, rows, pat, triples) {
      var i :| 0 <= i < |rows| && Extends(mu, rows[i], pat, triples);
      assert rows[i] in rows;
      assert rows[i] == b;
    }
    if Solution(b, pats, triples) && Extends(mu, b, pat, triples) {
      assert b in rows;
    }
  }

  lemma EmptySolution(triples: set<Triple>)
    ensures AllSolutions([map[]], [], triples)
  {
  }

  /** Without patterns there are no rows; otherwise each solution of the patterns, exactly once. */
  method Evaluate(pats: seq<Pattern>, store: TripleStore) returns (rows: seq<Binding>)
    requires store.Valid()
    ensures pats == [] ==> rows == []
    ensures pats != [] ==> AllSolutions(rows, pats, store.triples)
  {
    if pats == [] {
      return [];
    }
    EmptySolution(store.triples);
    rows := JoinPattern([map[]], pats[0], store, []);
    assert [] + [pats[0]] == pats[..1];
    var i := 1;
    while i < |pats|
      invariant 1 <= i <= |pats| && AllSolutions(rows, pats[..i], store.triples)
    {
      rows := JoinPattern(rows, pats[i], store, pats[..i]);
      assert pats[..i] + [pats[i]] == pats[..i + 1];
      i := i + 1;
      if rows == [] {
        NoSolutionsLater(pats, i, store.triples);
        break;
      }
    }
    assert pats[..|pats|] == pats;
  }

  /** When some of the patterns have no solution, all of them together have none. */
  lemma {:induction false} NoSolutionsLater(pats: seq<Pattern>, i: nat, triples: set<Triple>)
    requires i <= |pats| && AllSolutions([], pats[..i], triples)
    ensures AllSolutions([], pats, triples)
    decreases |pats| - i
  {
    if i < |pats| {
      var more := pats[..i + 1];
      assert more == pats[..i] + [pats[i]];
      forall mu: Binding ensures !Solution(mu, more, triples) {
        SolutionSplits(mu, pats[..i], pats[i], triples);
        assert Restricted(mu, AllVars(pats[..i])) !in [];
      }
      NoSolutionsLater(pats, i + 1, triples);
    } else {
      assert pats[..i] == pats;
    }
  }

  // ---------------------------------------------------------------- pattern order

  lemma {:induction false} VarFrom(pats: seq<Pattern>, x: string)
    ensures x in AllVars(pats) <==> exists i :: 0 <= i < |pats| && x in Vars(pats[i])
  {
    if pats != [] {
      VarFrom(pats[..|pats| - 1], x);
    }
  }

  /** The order of the patterns changes the order of the rows and nothing else. */
  lemma PatternOrder(p: seq<Pattern>, q: seq<Pattern>, triples: set<Triple>, a: seq<Binding>, b: seq<Binding>)
    requires multiset(p) == multiset(q) && AllSolutions(a, p, triples) && AllSolutions(b, q, triples)
    ensures multiset(a) == multiset(b)
  {
    forall mu: Binding ensures Solution(mu, p, triples) <==> Solution(mu, q, triples) {
      SameSolutions(mu, p, q, triples);
      SameSolutions(mu, q, p, triples);
    }
    forall mu: Binding ensures multiset(a)[mu] == multiset(b)[mu] {
      DistinctCount(a, mu);
      DistinctCount(b, mu);
    }
  }

  lemma SameSolutions(mu: Binding, p: seq<Pattern>, q: seq<Pattern>, triples: set<Triple>)
    requires multiset(p) == multiset(q)
    ensures Solution(mu, p, triples) ==> Solution(mu, q, triples)
  {
    forall i | Solution(mu, p, triples) && 0 <= i < |q| ensures Vars(q[i]) <= mu.Keys && Instance(q[i], mu) in triples {
      assert q[i] in multiset(q);
      assert q[i] in p;
    }
    forall x ensures x in AllVars(p) <==> x in AllVars(q) {
      SameVar(p, q, x);
      SameVar(q, p, x);
    }
  }

  lemma SameVar(p: seq<Pattern>, q: seq<Pattern>, x: string)
    requires multiset(p) == multiset(q)
    ensures x in AllVars(p) ==> x in AllVars(q)
  {
    VarFrom(p, x);
    VarFrom(q, x);
    if x in AllVars(p) {
      var i :| 0 <= i < |p| && x in Vars(p[i]);
      assert p[i] in multiset(p);
      assert p[i] in q;
    }
  }

  lemma {:induction false} DistinctCount(r: seq<Binding>, mu: Binding)
    requires Distinct(r)
    ensures multiset(r)[mu] == if mu in r then 1 else 0
  {
    if r != [] {
      DistinctCount(r[..|r| - 1], mu);
      assert r == r[..|r| - 1] + [r[|r| - 1]];
      assert r[|r| - 1] !in r[..|r| - 1];
    }
  }
}
