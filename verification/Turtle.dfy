/** The Turtle subset: triples printed with repeated subjects and predicates collapsed, and the
    reader for statements, abbreviations and prefixes. */
module Turtle {
  import opened Wrappers
  import opened RdfStore
  import opened RdfText

  // ---------------------------------------------------------------- grouping

  /** The contents of a `VecMap`: each key with its values, in the order of first insertion. */
  type Groups<K, V> = seq<(K, seq<V>)>

  function Pushed<K(==), V>(m: Groups<K, V>, k: K, v: V): Groups<K, V> {
    if m == [] then [(k, [v])]
    else if m[0].0 == k then [(k, m[0].1 + [v])] + m[1..]
    else [m[0]] + Pushed(m[1..], k, v)
  }

  function Grouped<K(==), V>(pairs: seq<(K, V)>): Groups<K, V> {
    if pairs == [] then []
    else
      var last := |pairs| - 1;
      Pushed(Grouped(pairs[..last]), pairs[last].0, pairs[last].1)
  }

  function Entries<K, V, T>(k: K, vs: seq<V>, f: (K, V) -> T): seq<T> {
    if vs == [] then [] else [f(k, vs[0])] + Entries(k, vs[1..], f)
  }

  function Spread<K, V, T>(m: Groups<K, V>, f: (K, V) -> T): seq<T> {
    if m == [] then [] else Entries(m[0].0, m[0].1, f) + Spread(m[1..], f)
  }

  // ---------------------------------------------------------------- printing

  type Printer = Term -> string

  type Properties = seq<(Term, Term)>

  function ObjectsText(objects: seq<Term>, show: Printer): string
    requires objects != []
  {
    show(objects[0]) + if |objects| == 1 then "" else " , " + ObjectsText(objects[1..], show)
  }

  predicate AllFilled(m: Groups<Term, Term>) { forall i :: 0 <= i < |m| ==> m[i].1 != [] }

  function PropertiesText(m: Groups<Term, Term>, show: Printer): string
    requires m != [] && AllFilled(m)
  {
    show(m[0].0) + " " + ObjectsText(m[0].1, show) + if |m| == 1 then "" else " ;\n  " + PropertiesText(m[1..], show)
  }

  lemma PushedFilled<V>(m: Groups<Term, V>, k: Term, v: V)
    requires forall i :: 0 <= i < |m| ==> m[i].1 != []
    ensures var p := Pushed(m, k, v); p != [] && forall i :: 0 <= i < |p| ==> p[i].1 != []
  {
  }

  lemma {:induction false} GroupedFilled<V>(pairs: seq<(Term, V)>)
    ensures var m := Grouped(pairs); (m == [] <==> pairs == []) && forall i :: 0 <= i < |m| ==> m[i].1 != []
  {
    if pairs != [] {
      var last := |pairs| - 1;
      GroupedFilled(pairs[..last]);
      PushedFilled(Grouped(pairs[..last]), pairs[last].0, pairs[last].1);
    }
  }

  function BlockText(subject: Term, properties: Properties, show: Printer): string
    requires properties != []
  {
    GroupedFilled(properties);
    show(subject) + " " + PropertiesText(Grouped(properties), show) + " .\n"
  }

  function BlocksText(m: Groups<Term, (Term, Term)>, show: Printer): string
    requires forall i :: 0 <= i < |m| ==> m[i].1 != []
  {
    if m == [] then "" else BlockText(m[0].0, m[0].1, show) + BlocksText(m[1..], show)
  }

  function BySubject(ts: seq<Triple>): seq<(Term, (Term, Term))> {
    if ts == [] then []
    else
      var last := |ts| - 1;
      BySubject(ts[..last]) + [(ts[last].s, (ts[last].p, ts[last].o))]
  }

  function TurtleText(ts: seq<Triple>): string {
    GroupedFilled(BySubject(ts));
    BlocksText(Grouped(BySubject(ts)), Format)
  }

  // ---------------------------------------------------------------- reading

  type Prefixes = map<string, string>

  function NoTerm(s: string, pos: nat): Reading<Term> { None }

  /** A reader that moves on when it succeeds. */
  type Forward = f: TermReader | forall s: string, p: nat :: f(s, p).Some? ==> p < f(s, p).value.1 <= |s| witness NoTerm

  function AfterLine(s: string, pos: nat): (r: nat)
    requires pos < |s|
    ensures pos < r <= |s|
    decreases |s| - pos
  {
    if s[pos] == '\n' || pos + 1 == |s| then pos + 1 else AfterLine(s, pos + 1)
  }

  function SkipComments(s: string, pos: nat): (r: nat)
    ensures pos <= r && (pos <= |s| ==> r <= |s|)
    decreases |s| - pos
  {
    var p := SkipSpace(s, pos);
    if Is(s, p, '#') then SkipComments(s, AfterLine(s, p)) else p
  }

  predicate NameChar(c: char) { TagChar(c) || c == '_' || c == ':' }

  predicate Keyword(s: string, pos: nat, word: string) {
    && pos + |word| <= |s| && s[pos..pos + |word|] == word
    && (pos + |word| < |s| ==> !NameChar(s[pos + |word|]))
  }

  /** An unknown prefix is an error. */
  function Expanded(name: Reading<(string, string)>, prefixes: Prefixes): Reading<Term> {
    match name
    case None => None
    case Some(((prefix, local), p)) => if prefix in prefixes then Some((Uri(prefixes[prefix] + local), p)) else None
  }

  function ReadTerm(s: string, pos: nat, prefixes: Prefixes): (r: Reading<Term>)
    ensures r.Some? ==> pos < r.value.1 <= |s|
  {
    var p := SkipSpace(s, pos);
    if p >= |s| then None
    else if s[p] == '<' then AsUri(ReadIri(s, p))
    else if s[p] == '_' then ReadBlank(s, p)
    else if s[p] == '"' || s[p] == '\'' then ReadLiteral(s, p)
    else if Letter(s[p]) || s[p] == ':' then Expanded(ReadPrefixed(s, p), prefixes)
    else None
  }

  function ReadVerb(s: string, pos: nat, prefixes: Prefixes): (r: Reading<Term>)
    ensures r.Some? ==> pos < r.value.1 <= |s|
  {
    var p := SkipSpace(s, pos);
    if TypeKeyword(s, p) then Some((Uri(RDF_TYPE), p + 1)) else ReadTerm(s, p, prefixes)
  }

  function Terms(prefixes: Prefixes): Forward { (s: string, pos: nat) => ReadTerm(s, pos, prefixes) }

  function Verbs(prefixes: Prefixes): Forward { (s: string, pos: nat) => ReadVerb(s, pos, prefixes) }

  function Prepended<T>(front: seq<T>, r: Reading<seq<T>>): Reading<seq<T>> {
    match r case None => None case Some((rest, p)) => Some((front + rest, p))
  }

  /** Objects with commas between them, and the white space behind. */
  function ReadObjects(s: string, pos: nat, term: Forward): (r: Reading<seq<Term>>)
    ensures r.Some? ==> pos < r.value.1 <= |s|
    decreases |s| - pos, 1
  {
    match term(s, pos) case None => None case Some((o, p)) => ObjectsAfter(s, o, SkipSpace(s, p), term)
  }

  function ObjectsAfter(s: string, o: Term, pos: nat, term: Forward): (r: Reading<seq<Term>>)
    requires pos <= |s|
    ensures r.Some? ==> pos <= r.value.1 <= |s|
    decreases |s| - pos, 2
  {
    if Is(s, pos, ',') then Prepended([o], ReadObjects(s, SkipSpace(s, pos + 1), term)) else Some(([o], pos))
  }

  function PairOf(p: Term, o: Term): (Term, Term) { (p, o) }

  function PairsOf(p: Term, objects: seq<Term>): Properties { Entries(p, objects, PairOf) }

  /** Predicates with their objects up to the dot; a semicolon may stand before it. */
  function ReadProperties(s: string, pos: nat, verb: Forward, term: Forward): (r: Reading<Properties>)
    ensures r.Some? ==> pos < r.value.1 <= |s|
    decreases |s| - pos, 2
  {
    var start := SkipSpace(s, pos);
    if Is(s, start, '.') then Some(([], start + 1)) else ReadProperty(s, start, verb, term)
  }

  /** A predicate and its objects. */
  function ReadPairs(s: string, pos: nat, verb: Forward, term: Forward): (r: Reading<Properties>)
    ensures r.Some? ==> pos < r.value.1 <= |s|
  {
    match verb(s, pos)
    case None => None
    case Some((p, q)) =>
      match ReadObjects(s, SkipSpace(s, q), term)
      case None => None
      case Some((objects, e)) => Some((PairsOf(p, objects), e))
  }

  function ReadProperty(s: string, pos: nat, verb: Forward, term: Forward): (r: Reading<Properties>)
    ensures r.Some? ==> pos < r.value.1 <= |s|
    decreases |s| - pos, 1
  {
    match ReadPairs(s, pos, verb, term)
    case None => None
    case Some((pairs, e)) => PropertiesAfter(s, pairs, e, verb, term)
  }

  function PropertiesAfter(s: string, pairs: Properties, pos: nat, verb: Forward, term: Forward): (r: Reading<Properties>)
    requires pos <= |s|
    ensures r.Some? ==> pos < r.value.1 <= |s|
    decreases |s| - pos, 3
  {
    if Is(s, pos, ';') then Prepended(pairs, ReadProperties(s, SkipSpace(s, pos + 1), verb, term))
    else if Is(s, pos, '.') then Some((pairs, pos + 1))
    else None
  }

  function TripleOf(s: Term, property: (Term, Term)): Triple { Triple(s, property.0, property.1) }

  function TriplesOf(subject: Term, properties: Properties): seq<Triple> { Entries(subject, properties, TripleOf) }

  function ReadBlock(s: string, pos: nat, verb: Forward, term: Forward): (r: Reading<seq<Triple>>)
    ensures r.Some? ==> pos < r.value.1 <= |s|
  {
    match term(s, SkipSpace(s, pos))
    case None => None
    case Some((subject, p)) =>
      match ReadProperties(s, SkipSpace(s, p), verb, term)
      case None => None
      case Some((properties, end)) => Some((TriplesOf(subject, properties), end))
  }

  function ColonAt(s: string, pos: nat): (r: nat)
    requires pos <= |s|
    ensures pos <= r <= |s| && (r < |s| ==> s[r] == ':')
    decreases |s| - pos
  {
    if pos == |s| || s[pos] == ':' then pos else ColonAt(s, pos + 1)
  }

  /** The IRI of a declaration, and the dot behind it if there is one. */
  function ReadTarget(s: string, pos: nat): (r: Reading<string>)
    requires pos <= |s|
    ensures r.Some? ==> pos < r.value.1 <= |s|
  {
    match ReadIri(s, SkipSpace(s, pos))
    case None => None
    case Some((iri, p)) =>
      var q := SkipSpace(s, p);
      Some((iri, if Is(s, q, '.') then q + 1 else q))
  }

  /** A prefix name, a colon and an IRI. */
  function ReadDeclaration(s: string, pos: nat): (r: Reading<(string, string)>)
    requires pos <= |s|
    ensures r.Some? ==> pos < r.value.1 <= |s|
  {
    var start := SkipSpace(s, pos);
    var colon := ColonAt(s, start);
    if colon == |s| then None
    else
      match ReadTarget(s, colon + 1)
      case None => None
      case Some((iri, p)) => Some(((s[start..colon], iri), p))
  }

  /** How long the keyword of a declaration is: for a prefix, for a base, or 0 for none. */
  function PrefixWord(s: string, pos: nat): nat {
    if Keyword(s, pos, "@prefix") then 7 else if Keyword(s, pos, "PREFIX") then 6 else 0
  }

  function BaseWord(s: string, pos: nat): nat {
    if Keyword(s, pos, "@base") then 5 else if Keyword(s, pos, "BASE") then 4 else 0
  }

  function ReadStatements(s: string, pos: nat, prefixes: Prefixes): Option<seq<Triple>>
    decreases |s| - pos, 1
  {
    ReadFrom(s, SkipComments(s, pos), prefixes)
  }

  /** The same, with no white space or comment at `pos`. */
  function ReadFrom(s: string, pos: nat, prefixes: Prefixes): Option<seq<Triple>>
    decreases |s| - pos, 0
  {
    if pos >= |s| then Some([])
    else if PrefixWord(s, pos) > 0 then
      match ReadDeclaration(s, pos + PrefixWord(s, pos))
      case None => None
      case Some(((name, iri), p)) => ReadStatements(s, p, prefixes[name := iri])
    else if BaseWord(s, pos) > 0 then
      match ReadTarget(s, pos + BaseWord(s, pos))
      case None => None
      case Some((_, p)) => ReadStatements(s, p, prefixes)
    else
      match ReadBlock(s, pos, Verbs(prefixes), Terms(prefixes))
      case None => None
      case Some((triples, p)) =>
        match ReadStatements(s, p, prefixes)
        case None => None
        case Some(rest) => Some(triples + rest)
  }

  function ReadTurtle(s: string): Option<seq<Triple>> { ReadStatements(s, 0, map[]) }
}
