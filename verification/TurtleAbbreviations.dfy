/** Triples written with declared prefixes come back; a prefix declared anew means the new IRI; an
    undeclared one is refused. */
module TurtleAbbreviations {
  import opened Wrappers
  import opened RdfStore
  import opened RdfText
  import opened RdfTextProofs
  import opened Turtle
  import opened TurtleProofs
  import opened TurtlePrefixes
  import opened TurtleDocuments

  // ---------------------------------------------------------------- abbreviating

  /** What is behind the IRI `base` in `iri`. */
  function Local(base: string, iri: string): Option<string> {
    if |base| <= |iri| && iri[..|base|] == base && CleanLabel(iri[|base|..]) then Some(iri[|base|..]) else None
  }

  /** The first of the names that shortens the IRI, or the IRI in full. */
  function Shortened(names: seq<string>, iri: string, prefixes: Prefixes): string {
    if names == [] then Format(Uri(iri))
    else if names[0] in prefixes && Local(prefixes[names[0]], iri).Some? then
      ShortText(names[0], Local(prefixes[names[0]], iri).value)
    else Shortened(names[1..], iri, prefixes)
  }

  function Abbreviating(names: seq<string>): Style {
    (prefixes: Prefixes, t: Term) => if t.Uri? then Shortened(names, t.iri, prefixes) else Format(t)
  }

  lemma {:induction false} ShortenedFaithful(names: seq<string>, iri: string, prefixes: Prefixes)
    requires (forall name :: name in names ==> CleanName(name)) && CleanIri(iri)
    ensures Faithful(Uri(iri), Shortened(names, iri, prefixes), prefixes)
  {
    if names != [] {
      assert names[0] in names;
      if names[0] in prefixes && Local(prefixes[names[0]], iri).Some? {
        assert Shortens(names[0], Local(prefixes[names[0]], iri).value, iri, prefixes);
      } else {
        ShortenedFaithful(names[1..], iri, prefixes);
      }
    }
  }

  lemma AbbreviatingFaithful(names: seq<string>, t: Term, prefixes: Prefixes)
    requires (forall name :: name in names ==> CleanName(name)) && Clean(t)
    ensures Faithful(t, Abbreviating(names)(prefixes, t), prefixes)
  {
    if t.Uri? {
      ShortenedFaithful(names, t.iri, prefixes);
    }
  }

  // ---------------------------------------------------------------- declarations and then triples

  type Declarations = seq<(string, string)>

  function Names(decls: Declarations): seq<string> {
    if decls == [] then [] else [decls[0].0] + Names(decls[1..])
  }

  ghost predicate CleanDeclarations(decls: Declarations) {
    forall i :: 0 <= i < |decls| ==> CleanName(decls[i].0) && CleanIri(decls[i].1)
  }

  function BlockParts(m: Groups<Term, (Term, Term)>): seq<Part> {
    if m == [] then [] else [Block(m[0].0, m[0].1)] + BlockParts(m[1..])
  }

  /** All declarations, in the form with a dot, and then the triples grouped by subject. */
  function DocumentParts(decls: Declarations, m: Groups<Term, (Term, Term)>): seq<Part> {
    if decls == [] then BlockParts(m) else [Define(decls[0].0, decls[0].1, false)] + DocumentParts(decls[1..], m)
  }

  lemma {:induction false} BlockTriples(m: Groups<Term, (Term, Term)>)
    ensures PartsTriples(BlockParts(m)) == Listed(m)
  {
    if m != [] {
      BlockTriples(m[1..]);
      assert BlockParts(m)[1..] == BlockParts(m[1..]);
    }
  }

  lemma {:induction false} DocumentTriples(decls: Declarations, m: Groups<Term, (Term, Term)>)
    ensures PartsTriples(DocumentParts(decls, m)) == Listed(m)
  {
    if decls == [] {
      BlockTriples(m);
    } else {
      DocumentTriples(decls[1..], m);
      assert DocumentParts(decls, m)[1..] == DocumentParts(decls[1..], m);
    }
  }

  ghost predicate CleanGroup(g: (Term, Properties)) {
    g.1 != [] && Clean(g.0) && forall i :: 0 <= i < |g.1| ==> Clean(g.1[i].0) && Clean(g.1[i].1)
  }

  ghost predicate CleanGroups(m: Groups<Term, (Term, Term)>) { forall i :: 0 <= i < |m| ==> CleanGroup(m[i]) }

  lemma {:induction false} BlocksFit(m: Groups<Term, (Term, Term)>, names: seq<string>, prefixes: Prefixes)
    requires CleanGroups(m) && forall name :: name in names ==> CleanName(name)
    ensures PartsFit(BlockParts(m), prefixes, Abbreviating(names))
  {
    if m != [] {
      assert CleanGroup(m[0]);
      AbbreviatingFaithful(names, m[0].0, prefixes);
      forall i | 0 <= i < |m[0].1|
        ensures Faithful(m[0].1[i].0, Abbreviating(names)(prefixes, m[0].1[i].0), prefixes)
        ensures Faithful(m[0].1[i].1, Abbreviating(names)(prefixes, m[0].1[i].1), prefixes)
      {
        AbbreviatingFaithful(names, m[0].1[i].0, prefixes);
        AbbreviatingFaithful(names, m[0].1[i].1, prefixes);
      }
      BlocksFit(m[1..], names, prefixes);
      assert BlockParts(m)[1..] == BlockParts(m[1..]);
    }
  }

  lemma {:induction false} DocumentFits(decls: Declarations, m: Groups<Term, (Term, Term)>, names: seq<string>,
                                        prefixes: Prefixes)
    requires CleanGroups(m) && CleanDeclarations(decls) && forall name :: name in names ==> CleanName(name)
    ensures PartsFit(DocumentParts(decls, m), prefixes, Abbreviating(names))
  {
    if decls == [] {
      BlocksFit(m, names, prefixes);
    } else {
      DocumentFits(decls[1..], m, names, prefixes[decls[0].0 := decls[0].1]);
      assert DocumentParts(decls, m)[1..] == DocumentParts(decls[1..], m);
    }
  }

  lemma PushedClean(m: Groups<Term, (Term, Term)>, k: Term, v: (Term, Term))
    requires CleanGroups(m) && Clean(k) && Clean(v.0) && Clean(v.1)
    ensures CleanGroups(Pushed(m, k, v))
  {
    if m == [] {
      assert CleanGroup((k, [v]));
    } else {
      assert CleanGroup(m[0]);
      if m[0].0 == k {
        assert CleanGroup((k, m[0].1 + [v]));
      } else {
        PushedClean(m[1..], k, v);
      }
    }
  }

  lemma {:induction false} GroupedClean(ts: seq<Triple>)
    requires forall t :: t in ts ==> Clean(t.s) && Clean(t.p) && Clean(t.o)
    ensures CleanGroups(Grouped(BySubject(ts)))
  {
    if ts != [] {
      var last := |ts| - 1;
      var t := ts[last];
      GroupedClean(ts[..last]);
      var pairs := BySubject(ts);
      assert pairs[..|pairs| - 1] == BySubject(ts[..last]);
      PushedClean(Grouped(BySubject(ts[..last])), t.s, (t.p, t.o));
    }
  }

  lemma {:induction false} NamesClean(decls: Declarations)
    requires CleanDeclarations(decls)
    ensures forall name :: name in Names(decls) ==> CleanName(name)
  {
    if decls != [] {
      NamesClean(decls[1..]);
    }
  }

  /** Clean triples written behind declarations, every IRI shortened by the first declared prefix that
      can shorten it, come back as a permutation with every duplicate kept. */
  lemma AbbreviatedRoundTrip(decls: Declarations, ts: seq<Triple>)
    requires CleanDeclarations(decls) && forall t :: t in ts ==> Clean(t.s) && Clean(t.p) && Clean(t.o)
    ensures var parts := DocumentParts(decls, Grouped(BySubject(ts)));
            && AllPartsFilled(parts)
            && ReadTurtle(PartsText(parts, map[], Abbreviating(Names(decls)))) == Some(Collapsed(ts))
            && multiset(Collapsed(ts)) == multiset(ts)
  {
    var m := Grouped(BySubject(ts));
    GroupedClean(ts);
    NamesClean(decls);
    DocumentFits(decls, m, Names(decls), map[]);
    WholeTextRead(DocumentParts(decls, m), Abbreviating(Names(decls)));
    DocumentTriples(decls, m);
    CollapsedPermutes(ts);
  }

  // ---------------------------------------------------------------- declaring anew

  /** Every term is written by the same name. */
  function Always(name: string, local: string): Style { (prefixes: Prefixes, t: Term) => ShortText(name, local) }

  function Thrice(iri: string): Triple { Triple(Uri(iri), Uri(iri), Uri(iri)) }

  function SelfBlock(iri: string): Part { Block(Uri(iri), [(Uri(iri), Uri(iri))]) }

  lemma SelfTriples(iri: string)
    ensures PartTriples(SelfBlock(iri)) == [Thrice(iri)]
  {
    var t := Thrice(iri);
    var properties: Properties := [(t.p, t.o)];
    assert properties[..0] == [] && Grouped(properties) == [(t.p, [t.o])];
    SpreadAlone(t);
  }

  lemma FitsCons(part: Part, rest: seq<Part>, prefixes: Prefixes, style: Style)
    requires PartFits(part, prefixes, style) && PartsFit(rest, Behind(part, prefixes), style)
    ensures PartsFit([part] + rest, prefixes, style)
    ensures PartsTriples([part] + rest) == PartTriples(part) + PartsTriples(rest)
  {
    assert ([part] + rest)[1..] == rest;
  }

  /** A declaration, a block, another declaration of the same prefix, and a block. */
  function DeclaredTwice(name: string, a: string, b: string, local: string, sparql: bool): seq<Part> {
    [Define(name, a, sparql)] + ([SelfBlock(a + local)] + ([Define(name, b, sparql)] + ([SelfBlock(b + local)] + [])))
  }

  lemma DeclaredTwiceFits(name: string, a: string, b: string, local: string, sparql: bool)
    requires CleanName(name) && CleanLabel(local) && CleanIri(a) && CleanIri(b)
    ensures PartsFit(DeclaredTwice(name, a, b, local, sparql), map[], Always(name, local))
    ensures PartsTriples(DeclaredTwice(name, a, b, local, sparql)) == [Thrice(a + local), Thrice(b + local)]
  {
    var style: Style := Always(name, local);
    var first: Prefixes := map[name := a];
    var second := first[name := b];
    SelfFits(name, a, local, first);
    SelfFits(name, b, local, second);
    SelfTriples(a + local);
    SelfTriples(b + local);
    FitsCons(SelfBlock(b + local), [], second, style);
    FitsCons(Define(name, b, sparql), [SelfBlock(b + local)] + [], first, style);
    FitsCons(SelfBlock(a + local), [Define(name, b, sparql)] + ([SelfBlock(b + local)] + []), first, style);
    FitsCons(Define(name, a, sparql), [SelfBlock(a + local)] + ([Define(name, b, sparql)] + ([SelfBlock(b + local)] + [])),
             map[], style);
  }

  /** The same block, written by the same name, before and after the prefix is declared anew: the name
      means the first IRI and then the second. */
  lemma Redefined(name: string, a: string, b: string, local: string, sparql: bool)
    requires CleanName(name) && CleanLabel(local) && CleanIri(a) && CleanIri(b)
    ensures var parts, show := DeclaredTwice(name, a, b, local, sparql), (t: Term) => ShortText(name, local);
            && PartText(SelfBlock(a + local), show) == PartText(SelfBlock(b + local), show)
            && AllPartsFilled(parts)
            && ReadTurtle(PartsText(parts, map[], Always(name, local))) == Some([Thrice(a + local), Thrice(b + local)])
  {
    DeclaredTwiceFits(name, a, b, local, sparql);
    WholeTextRead(DeclaredTwice(name, a, b, local, sparql), Always(name, local));
    SameText(a + local, b + local, (t: Term) => ShortText(name, local), ShortText(name, local));
  }

  lemma SelfFits(name: string, iri: string, local: string, prefixes: Prefixes)
    requires CleanName(name) && CleanLabel(local) && name in prefixes && prefixes[name] == iri
    ensures PartFits(SelfBlock(iri + local), prefixes, Always(name, local))
  {
    assert Shortens(name, local, iri + local, prefixes);
  }

  lemma SameText(a: string, b: string, show: Printer, text: string)
    requires show(Uri(a)) == text && show(Uri(b)) == text
    ensures PartText(SelfBlock(a), show) == PartText(SelfBlock(b), show)
  {
    SelfText(a, show);
    SelfText(b, show);
  }

  lemma SelfText(iri: string, show: Printer)
    ensures var x := show(Uri(iri)); PartText(SelfBlock(iri), show) == x + " " + (x + " " + (x + "" + "")) + " .\n"
  {
    var properties: Properties := [(Uri(iri), Uri(iri))];
    assert properties[..0] == [] && Grouped(properties) == [(Uri(iri), [Uri(iri)])];
    assert ObjectsText([Uri(iri)], show) == show(Uri(iri)) + "";
  }
}
