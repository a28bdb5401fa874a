/** RDF triples and the triple store with its three indexes. */
module RdfStore {
  import opened Wrappers

  datatype Term = Uri(iri: string) | Blank(name: string) | Literal(text: string, annotation: Option<string>)

  datatype Triple = Triple(s: Term, p: Term, o: Term)

  type Index = map<Term, seq<Triple>>

  datatype Position = Subject | Predicate | Object

  function At(t: Triple, pos: Position): Term {
    match pos case Subject => t.s case Predicate => t.p case Object => t.o
  }

  function Entry(idx: Index, k: Term): seq<Triple> { if k in idx then idx[k] else [] }

  ghost predicate Distinct<T(!new)>(ts: seq<T>) { forall i, j :: 0 <= i < j < |ts| ==> ts[i] != ts[j] }

  /** Each entry lists the triples with that term at `pos`, each once. */
  ghost predicate Indexes(idx: Index, triples: set<Triple>, pos: Position) {
    forall k: Term :: Lists(Entry(idx, k), triples, pos, k)
  }

  ghost predicate Lists(ts: seq<Triple>, triples: set<Triple>, pos: Position, k: Term) {
    Distinct(ts) && forall t: Triple :: t in ts <==> t in triples && At(t, pos) == k
  }

  predicate Fits(t: Triple, s: Option<Term>, p: Option<Term>, o: Option<Term>) {
    && (s.Some? ==> t.s == s.value) && (p.Some? ==> t.p == p.value) && (o.Some? ==> t.o == o.value)
  }

  // ---------------------------------------------------------------- index updates

  function Added(idx: Index, t: Triple, pos: Position): Index { idx[At(t, pos) := Entry(idx, At(t, pos)) + [t]] }

  function Without(ts: seq<Triple>, t: Triple): (r: seq<Triple>)
    ensures forall x :: x in r <==> x in ts && x != t
  {
    if ts == [] then []
    else if ts[|ts| - 1] == t then Without(ts[..|ts| - 1], t)
    else Without(ts[..|ts| - 1], t) + [ts[|ts| - 1]]
  }

  function Removed(idx: Index, t: Triple, pos: Position): Index {
    if At(t, pos) in idx then idx[At(t, pos) := Without(idx[At(t, pos)], t)] else idx
  }

  lemma AddedIndexes(idx: Index, triples: set<Triple>, pos: Position, t: Triple)
    requires Indexes(idx, triples, pos) && t !in triples
    ensures Indexes(Added(idx, t, pos), triples + {t}, pos)
  {
    forall k: Term ensures Lists(Entry(Added(idx, t, pos), k), triples + {t}, pos, k) {
      assert Lists(Entry(idx, k), triples, pos, k);
    }
  }

  lemma {:induction false} WithoutDistinct(ts: seq<Triple>, t: Triple)
    requires Distinct(ts)
    ensures Distinct(Without(ts, t))
  {
    if ts != [] {
      var init, last := ts[..|ts| - 1], ts[|ts| - 1];
      WithoutDistinct(init, t);
      assert last !in init;
    }
  }

  lemma RemovedIndexes(idx: Index, triples: set<Triple>, pos: Position, t: Triple)
    requires Indexes(idx, triples, pos)
    ensures Indexes(Removed(idx, t, pos), triples - {t}, pos)
  {
    forall k: Term ensures Lists(Entry(Removed(idx, t, pos), k), triples - {t}, pos, k) {
      assert Lists(Entry(idx, k), triples, pos, k);
      WithoutDistinct(Entry(idx, k), t);
    }
  }

  // ---------------------------------------------------------------- the store

  class TripleStore {
    var triples: set<Triple>
    var idxS: Index
    var idxP: Index
    var idxO: Index

    /** The three indexes agree with the triple set. */
    ghost predicate Valid()
      reads this
    {
      Indexes(idxS, triples, Subject) && Indexes(idxP, triples, Predicate) && Indexes(idxO, triples, Object)
    }

    constructor ()
      ensures Valid() && triples == {}
    {
      triples, idxS, idxP, idxO := {}, map[], map[], map[];
    }

    method Insert(t: Triple) returns (isNew: bool)
      requires Valid()
      modifies this
      ensures Valid() && triples == old(triples) + {t} && isNew == (t !in old(triples))
    {
      if t in triples {
        return false;
      }
      AddedIndexes(idxS, triples, Subject, t);
      AddedIndexes(idxP, triples, Predicate, t);
      AddedIndexes(idxO, triples, Object, t);
      triples := triples + {t};
      idxS := idxS[t.s := Entry(idxS, t.s) + [t]];
      idxP := idxP[t.p := Entry(idxP, t.p) + [t]];
      idxO := idxO[t.o := Entry(idxO, t.o) + [t]];
      isNew := true;
    }

    method Remove(t: Triple) returns (found: bool)
      requires Valid()
      modifies this
      ensures Valid() && triples == old(triples) - {t} && found == (t in old(triples))
    {
      if t !in triples {
        return false;
      }
      RemovedIndexes(idxS, triples, Subject, t);
      RemovedIndexes(idxP, triples, Predicate, t);
      RemovedIndexes(idxO, triples, Object, t);
      triples := triples - {t};
      if t.s in idxS {
        var kept := Retain(idxS[t.s], t);
        idxS := idxS[t.s := kept];
      }
      if t.p in idxP {
        var kept := Retain(idxP[t.p], t);
        idxP := idxP[t.p := kept];
      }
      if t.o in idxO {
        var kept := Retain(idxO[t.o], t);
        idxO := idxO[t.o := kept];
      }
      found := true;
    }

    /** All triples in some order. */
    method All() returns (r: seq<Triple>)
      ensures Distinct(r) && forall t: Triple :: t in r <==> t in triples
    {
      r := [];
      var left := triples;
      while left != {}
        invariant left <= triples && Distinct(r) && forall t: Triple :: t in r <==> t in triples && t !in left
        decreases left
      {
        var t :| t in left;
        r := r + [t];
        left := left - {t};
      }
    }

    /** The stored triples with the given terms, each once; the most selective index comes first. */
    method MatchPattern(s: Option<Term>, p: Option<Term>, o: Option<Term>) returns (r: seq<Triple>)
      requires Valid()
      ensures Distinct(r) && forall t: Triple :: t in r <==> t in triples && Fits(t, s, p, o)
    {
      var candidates: seq<Triple>;
      if s.Some? {
        assert Lists(Entry(idxS, s.value), triples, Subject, s.value);
        candidates := Entry(idxS, s.value);
      } else if p.Some? {
        assert Lists(Entry(idxP, p.value), triples, Predicate, p.value);
        candidates := Entry(idxP, p.value);
      } else if o.Some? {
        assert Lists(Entry(idxO, o.value), triples, Object, o.value);
        candidates := Entry(idxO, o.value);
      } else {
        candidates := All();
      }
      r := Filter(candidates, s, p, o);
    }
  }

  method Retain(ts: seq<Triple>, t: Triple) returns (r: seq<Triple>)
    ensures r == Without(ts, t)
  {
    r := [];
    for i := 0 to |ts|
      invariant r == Without(ts[..i], t)
    {
      assert ts[..i + 1][..i] == ts[..i];
      if ts[i] != t {
        r := r + [ts[i]];
      }
    }
    assert ts[..|ts|] == ts;
  }

  method Filter(candidates: seq<Triple>, s: Option<Term>, p: Option<Term>, o: Option<Term>) returns (r: seq<Triple>)
    requires Distinct(candidates)
    ensures Distinct(r) && forall t: Triple :: t in r <==> t in candidates && Fits(t, s, p, o)
  {
    r := [];
    for i := 0 to |candidates|
      invariant Distinct(r) && forall t: Triple :: t in r <==> t in candidates[..i] && Fits(t, s, p, o)
    {
      assert candidates[..i + 1] == candidates[..i] + [candidates[i]];
      assert candidates[i] !in candidates[..i];
      if Fits(candidates[i], s, p, o) {
        r := r + [candidates[i]];
      }
    }
    assert candidates[..|candidates|] == candidates;
  }
}
