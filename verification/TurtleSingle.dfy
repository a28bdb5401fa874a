/** One triple written by three words: what each may be, and which of them are refused. */
module TurtleSingle {
  import opened Wrappers
  import opened RdfStore
  import opened RdfText
  import opened RdfTextProofs
  import opened Turtle
  import opened TurtleProofs
  import opened TurtlePrefixes

  function At(t: Option<Term>, p: nat): Reading<Term> {
    match t case None => None case Some(term) => Some((term, p))
  }

  /** Before a space the reader takes the word for the term, or refuses it if it stands for none. */
  ghost predicate StandsFor(word: string, t: Option<Term>, read: Forward) {
    && word != "" && Opens(word[0])
    && forall s: string, pos: nat :: Here(s, pos, word + " ") ==> read(s, pos) == At(t, pos + |word|)
  }

  // ---------------------------------------------------------------- words

  lemma CleanStands(t: Term, prefixes: Prefixes)
    requires Clean(t)
    ensures StandsFor(Format(t), Some(t), Terms(prefixes)) && StandsFor(Format(t), Some(t), Verbs(prefixes))
  {
    CleanShown(t, prefixes);
  }

  function Named(name: string, local: string, prefixes: Prefixes): Option<Term> {
    if name in prefixes then Some(Uri(prefixes[name] + local)) else None
  }

  /** A prefixed name stands for an IRI exactly if its prefix has been declared. */
  lemma NameStands(name: string, local: string, prefixes: Prefixes)
    requires CleanName(name) && CleanLabel(local)
    ensures StandsFor(ShortText(name, local), Named(name, local, prefixes), Terms(prefixes))
    ensures StandsFor(ShortText(name, local), Named(name, local, prefixes), Verbs(prefixes))
  {
    var word, t := ShortText(name, local), Named(name, local, prefixes);
    assert word[0] == if name == "" then ':' else name[0];
    forall s: string, pos: nat | Here(s, pos, word + " ")
      ensures ReadTerm(s, pos, prefixes) == ReadVerb(s, pos, prefixes) == At(t, pos + |word|)
    {
      PrefixedReads(s, pos, name, local, prefixes);
    }
  }

  /** The word `a` is the predicate `rdf:type`, and no term elsewhere. */
  lemma TypeStands(prefixes: Prefixes)
    ensures StandsFor("a", Some(Uri(RDF_TYPE)), Verbs(prefixes)) && StandsFor("a", None, Terms(prefixes))
  {
    forall s: string, pos: nat | Here(s, pos, "a" + " ")
      ensures ReadVerb(s, pos, prefixes) == Some((Uri(RDF_TYPE), pos + 1)) && ReadTerm(s, pos, prefixes) == None
    {
      TypeReads(s, pos, prefixes);
    }
    assert "a"[0] == 'a';
  }

  lemma TypeReads(s: string, pos: nat, prefixes: Prefixes)
    requires Here(s, pos, "a" + " ")
    ensures ReadVerb(s, pos, prefixes) == ReadPredicate(s, pos) == Some((Uri(RDF_TYPE), pos + 1))
    ensures ReadTerm(s, pos, prefixes) == None
  {
    HereSplit(s, pos, "a", " ");
    HereFirst(s, pos, "a");
    HereFirst(s, pos + 1, " ");
    NoSkip(s, pos);
    assert PrefixEnd(s, pos + 1) == None;
    assert ReadPrefixed(s, pos) == None;
  }

  // ---------------------------------------------------------------- three words and a dot

  /** The three words with spaces between them, and the dot at `e`. */
  ghost predicate WordsAt(s: string, pos: nat, x: string, y: string, z: string, q: nat, r: nat, e: nat) {
    && Word(s, pos, x) && q == pos + |x| + 1 && Word(s, q, y) && r == q + |y| + 1 && Word(s, r, z)
    && e == r + |z| + 1 && Is(s, e, '.')
  }

  lemma WordsSpaced(s: string, pos: nat, x: string, y: string, z: string, q: nat, r: nat, e: nat)
    requires WordsAt(s, pos, x, y, z, q, r, e)
    ensures pos + |x| < q < r < e < |s| && s[q] != '.'
    ensures SkipSpace(s, pos) == pos && SkipSpace(s, pos + |x|) == q && SkipSpace(s, q) == q
    ensures SkipSpace(s, q + |y|) == r && SkipSpace(s, r) == r && SkipSpace(s, r + |z|) == e
  {
    WordEnds(s, pos, x);
    WordEnds(s, q, y);
    WordEnds(s, r, z);
    OneSpace(s, pos + |x|);
    OneSpace(s, q + |y|);
    OneSpace(s, r + |z|);
  }

  function Three(s: Option<Term>, p: Option<Term>, o: Option<Term>, e: nat): Reading<seq<Triple>> {
    if s.Some? && p.Some? && o.Some? then Some(([Triple(s.value, p.value, o.value)], e)) else None
  }

  lemma EntriesOne<K, V, T>(k: K, v: V, f: (K, V) -> T)
    ensures Entries(k, [v], f) == [f(k, v)]
  {
    assert [v][1..] == [];
  }

  function OnePair(p: Option<Term>, o: Option<Term>, e: nat): Reading<Properties> {
    if p.Some? && o.Some? then Some(([(p.value, o.value)], e)) else None
  }

  lemma PairsOne(s: string, q: nat, n: nat, r: nat, m: nat, e: nat, p: Option<Term>, o: Option<Term>,
                 verb: Forward, term: Forward)
    requires verb(s, q) == At(p, n) && SkipSpace(s, n) == r && term(s, r) == At(o, m)
    requires SkipSpace(s, m) == e && Is(s, e, '.')
    ensures ReadPairs(s, q, verb, term) == OnePair(p, o, e)
  {
    if p.Some? && o.Some? {
      assert ReadObjects(s, r, term) == ObjectsAfter(s, o.value, e, term) == Some(([o.value], e));
      EntriesOne(p.value, o.value, PairOf);
    }
  }

  lemma BlockOne(s: string, pos: nat, n: nat, q: nat, e: nat, x: Option<Term>, p: Option<Term>, o: Option<Term>,
                 verb: Forward, term: Forward)
    requires SkipSpace(s, pos) == pos && term(s, pos) == At(x, n) && SkipSpace(s, n) == q && SkipSpace(s, q) == q
    requires q < e < |s| && s[q] != '.' && s[e] == '.' && ReadPairs(s, q, verb, term) == OnePair(p, o, e)
    ensures ReadBlock(s, pos, verb, term) == Three(x, p, o, e + 1)
  {
    PropertiesOne(s, q, e, p, o, verb, term);
    if x.Some? && p.Some? && o.Some? {
      EntriesOne(x.value, (p.value, o.value), TripleOf);
    }
  }

  lemma PropertiesOne(s: string, q: nat, e: nat, p: Option<Term>, o: Option<Term>, verb: Forward, term: Forward)
    requires SkipSpace(s, q) == q < e < |s| && s[q] != '.' && s[e] == '.'
    requires ReadPairs(s, q, verb, term) == OnePair(p, o, e)
    ensures ReadProperties(s, q, verb, term) == OnePair(p, o, e + 1)
  {
    if p.Some? && o.Some? {
      assert ReadProperty(s, q, verb, term) == PropertiesAfter(s, [(p.value, o.value)], e, verb, term);
    } else {
      assert ReadProperty(s, q, verb, term) == None;
    }
  }

  /** Three words and a dot are read as the triple they stand for; if one of them stands for nothing,
      an undeclared prefix say, the statement is refused. */
  lemma SingleExact(s: string, pos: nat, x: string, y: string, z: string, q: nat, r: nat, e: nat,
                    subject: Option<Term>, p: Option<Term>, o: Option<Term>, verb: Forward, term: Forward)
    requires WordsAt(s, pos, x, y, z, q, r, e)
    requires StandsFor(x, subject, term) && StandsFor(y, p, verb) && StandsFor(z, o, term)
    ensures ReadBlock(s, pos, verb, term) == Three(subject, p, o, e + 1)
  {
    WordsSpaced(s, pos, x, y, z, q, r, e);
    PairsOne(s, q, q + |y|, r, r + |z|, e, p, o, verb, term);
    BlockOne(s, pos, pos + |x|, q, e, subject, p, o, verb, term);
  }

  /** A text goes no further than a statement with an undeclared prefix, as its subject, its predicate or
      its object. */
  lemma UndeclaredRefused(s: string, pos: nat, x: string, y: string, z: string, q: nat, r: nat, e: nat,
                          subject: Option<Term>, p: Option<Term>, o: Option<Term>, prefixes: Prefixes)
    requires WordsAt(s, pos, x, y, z, q, r, e) && PrefixWord(s, pos) == 0 && BaseWord(s, pos) == 0
    requires StandsFor(x, subject, Terms(prefixes)) && StandsFor(y, p, Verbs(prefixes)) && StandsFor(z, o, Terms(prefixes))
    requires subject.None? || p.None? || o.None?
    ensures ReadStatements(s, pos, prefixes) == None
  {
    SingleExact(s, pos, x, y, z, q, r, e, subject, p, o, Verbs(prefixes), Terms(prefixes));
    WordEnds(s, pos, x);
    assert SkipComments(s, pos) == pos;
  }

  /** A triple of three prefixed names is read exactly if all three prefixes have been declared. */
  lemma NamesExact(s: string, pos: nat, names: (string, string, string), locals: (string, string, string),
                   q: nat, r: nat, e: nat, prefixes: Prefixes)
    requires CleanName(names.0) && CleanName(names.1) && CleanName(names.2)
    requires CleanLabel(locals.0) && CleanLabel(locals.1) && CleanLabel(locals.2)
    requires WordsAt(s, pos, ShortText(names.0, locals.0), ShortText(names.1, locals.1), ShortText(names.2, locals.2), q, r, e)
    ensures var all := names.0 in prefixes && names.1 in prefixes && names.2 in prefixes;
            && ReadBlock(s, pos, Verbs(prefixes), Terms(prefixes)) ==
                 (if all then
                    Some(([Triple(Uri(prefixes[names.0] + locals.0), Uri(prefixes[names.1] + locals.1),
                                  Uri(prefixes[names.2] + locals.2))], e + 1))
                  else None)
            && (!all ==> ReadStatements(s, pos, prefixes) == None)
  {
    var x, y, z := ShortText(names.0, locals.0), ShortText(names.1, locals.1), ShortText(names.2, locals.2);
    NameStands(names.0, locals.0, prefixes);
    NameStands(names.1, locals.1, prefixes);
    NameStands(names.2, locals.2, prefixes);
    var subject, p, o := Named(names.0, locals.0, prefixes), Named(names.1, locals.1, prefixes), Named(names.2, locals.2, prefixes);
    SingleExact(s, pos, x, y, z, q, r, e, subject, p, o, Verbs(prefixes), Terms(prefixes));
    NoDeclaration(s, pos, names.0, locals.0);
    if subject.None? || p.None? || o.None? {
      UndeclaredRefused(s, pos, x, y, z, q, r, e, subject, p, o, prefixes);
    }
  }

  /** `x a z .` says that the type of x is z. */
  lemma TypedReads(s: string, pos: nat, x: Term, z: Term, q: nat, r: nat, e: nat, prefixes: Prefixes)
    requires Clean(x) && Clean(z) && WordsAt(s, pos, Format(x), "a", Format(z), q, r, e)
    ensures ReadBlock(s, pos, Verbs(prefixes), Terms(prefixes)) == Some(([Triple(x, Uri(RDF_TYPE), z)], e + 1))
  {
    CleanStands(x, prefixes);
    CleanStands(z, prefixes);
    TypeStands(prefixes);
    SingleExact(s, pos, Format(x), "a", Format(z), q, r, e, Some(x), Some(Uri(RDF_TYPE)), Some(z),
                Verbs(prefixes), Terms(prefixes));
  }
}
