/** The Turtle text of a list of triples is read back as a permutation of the list. */
module TurtleProofs {
  import opened Wrappers
  import opened RdfStore
  import opened RdfText
  import opened RdfTextProofs
  import opened Turtle

  // ---------------------------------------------------------------- grouping rearranges

  function Mapped<K, V, T>(pairs: seq<(K, V)>, f: (K, V) -> T): seq<T> {
    if pairs == [] then []
    else
      var last := |pairs| - 1;
      Mapped(pairs[..last], f) + [f(pairs[last].0, pairs[last].1)]
  }

  lemma {:induction false} EntriesAppend<K, V, T>(k: K, vs: seq<V>, v: V, f: (K, V) -> T)
    ensures Entries(k, vs + [v], f) == Entries(k, vs, f) + [f(k, v)]
  {
    if vs == [] {
      assert [v][1..] == [];
      assert vs + [v] == [v];
    } else {
      assert (vs + [v])[1..] == vs[1..] + [v];
      EntriesAppend(k, vs[1..], v, f);
    }
  }

  lemma {:induction false} PushedSpreads<K, V, T>(m: Groups<K, V>, k: K, v: V, f: (K, V) -> T)
    ensures multiset(Spread(Pushed(m, k, v), f)) == multiset(Spread(m, f)) + multiset{f(k, v)}
  {
    if m == [] {
      assert Entries(k, [v], f) == [f(k, v)] + Entries(k, [v][1..], f);
      assert Pushed(m, k, v)[1..] == [];
    } else if m[0].0 == k {
      EntriesAppend(k, m[0].1, v, f);
      assert Pushed(m, k, v)[1..] == m[1..];
    } else {
      assert Pushed(m, k, v)[1..] == Pushed(m[1..], k, v);
      PushedSpreads(m[1..], k, v, f);
    }
  }

  /** Grouping a list by key and spreading the groups out again permutes the list. */
  lemma {:induction false} GroupedSpreads<K, V, T>(pairs: seq<(K, V)>, f: (K, V) -> T)
    ensures multiset(Spread(Grouped(pairs), f)) == multiset(Mapped(pairs, f))
  {
    if pairs != [] {
      var last := |pairs| - 1;
      GroupedSpreads(pairs[..last], f);
      PushedSpreads(Grouped(pairs[..last]), pairs[last].0, pairs[last].1, f);
    }
  }

  lemma SpreadOne<K, V, T>(m: Groups<K, V>, f: (K, V) -> T)
    requires |m| == 1
    ensures Spread(m, f) == Entries(m[0].0, m[0].1, f)
  {
    assert m[1..] == [];
    assert Entries(m[0].0, m[0].1, f) + [] == Entries(m[0].0, m[0].1, f);
  }

  lemma SpreadMore<K, V, T>(m: Groups<K, V>, f: (K, V) -> T)
    requires m != []
    ensures Spread(m, f) == Entries(m[0].0, m[0].1, f) + Spread(m[1..], f)
  {
  }

  lemma {:induction false} EntriesSplit<K, V, T>(k: K, a: seq<V>, b: seq<V>, f: (K, V) -> T)
    ensures Entries(k, a + b, f) == Entries(k, a, f) + Entries(k, b, f)
  {
    if a == [] {
      assert a + b == b;
    } else {
      assert (a + b)[1..] == a[1..] + b;
      EntriesSplit(k, a[1..], b, f);
    }
  }

  lemma {:induction false} EntriesPermute<K, V, T>(k: K, a: seq<V>, b: seq<V>, f: (K, V) -> T)
    requires multiset(a) == multiset(b)
    ensures multiset(Entries(k, a, f)) == multiset(Entries(k, b, f))
  {
    if a == [] {
      assert |b| == |multiset(b)| == |multiset(a)|;
    } else {
      var before, after := TakeOut(a, b);
      EntriesPermute(k, a[1..], before + after, f);
      EntriesSplit(k, before, [a[0]] + after, f);
      EntriesSplit(k, before, after, f);
      assert ([a[0]] + after)[1..] == after;
    }
  }

  lemma TakeOut<V>(a: seq<V>, b: seq<V>) returns (before: seq<V>, after: seq<V>)
    requires a != [] && multiset(a) == multiset(b)
    ensures b == before + ([a[0]] + after) && multiset(a[1..]) == multiset(before + after)
  {
    assert a[0] in multiset(a);
    var i :| 0 <= i < |b| && b[i] == a[0];
    before, after := b[..i], b[i + 1..];
    assert b == before + ([a[0]] + after);
    WithFirst(a);
    WithMiddle(before, a[0], after);
    var x := multiset{a[0]};
    assert multiset(a[1..]) == (x + multiset(a[1..])) - x == (x + multiset(before + after)) - x;
  }

  lemma WithFirst<V>(a: seq<V>)
    requires a != []
    ensures multiset(a) == multiset{a[0]} + multiset(a[1..])
  {
    assert a == [a[0]] + a[1..];
  }

  lemma WithMiddle<V>(before: seq<V>, x: V, after: seq<V>)
    ensures multiset(before + ([x] + after)) == multiset{x} + multiset(before + after)
  {
  }

  lemma {:induction false} PairsAreThemselves(properties: Properties)
    ensures Mapped(properties, PairOf) == properties
  {
    if properties != [] {
      PairsAreThemselves(properties[..|properties| - 1]);
    }
  }

  lemma {:induction false} TriplesAreThemselves(ts: seq<Triple>)
    ensures Mapped(BySubject(ts), TripleOf) == ts
  {
    if ts != [] {
      var last := |ts| - 1;
      TriplesAreThemselves(ts[..last]);
      var pairs := BySubject(ts);
      assert pairs[..|pairs| - 1] == BySubject(ts[..last]);
    }
  }

  /** The triples of the printed blocks, in the order in which they are printed. */
  function Listed(m: Groups<Term, (Term, Term)>): seq<Triple> {
    if m == [] then [] else TriplesOf(m[0].0, Spread(Grouped(m[0].1), PairOf)) + Listed(m[1..])
  }

  lemma {:induction false} ListedSpreads(m: Groups<Term, (Term, Term)>)
    ensures multiset(Listed(m)) == multiset(Spread(m, TripleOf))
  {
    if m != [] {
      ListedSpreads(m[1..]);
      var properties := m[0].1;
      GroupedSpreads(properties, PairOf);
      PairsAreThemselves(properties);
      EntriesPermute(m[0].0, Spread(Grouped(properties), PairOf), properties, TripleOf);
    }
  }

  function Collapsed(ts: seq<Triple>): seq<Triple> { Listed(Grouped(BySubject(ts))) }

  /** Collapsing loses no triple and no duplicate, and adds none. */
  lemma CollapsedPermutes(ts: seq<Triple>)
    ensures multiset(Collapsed(ts)) == multiset(ts)
  {
    ListedSpreads(Grouped(BySubject(ts)));
    GroupedSpreads(BySubject(ts), TripleOf);
    TriplesAreThemselves(ts);
  }

  // ---------------------------------------------------------------- printed terms

  predicate Marks(c: char) { c == '<' || c == '_' || c == '"' }

  /** What a term may start with, prefixed names included. */
  predicate Opens(c: char) { Marks(c) || Letter(c) || c == ':' }

  /** Where the printed form of `t` and a space stand, the reader finds `t`. */
  ghost predicate Shown(t: Term, show: Printer, read: Forward) {
    && show(t) != "" && Opens(show(t)[0])
    && forall s: string, pos: nat :: Here(s, pos, show(t) + " ") ==> read(s, pos) == Some((t, pos + |show(t)|))
  }

  ghost predicate AllShown(ts: seq<Term>, show: Printer, read: Forward) {
    forall i :: 0 <= i < |ts| ==> Shown(ts[i], show, read)
  }

  lemma OpenTerm(s: string, pos: nat, prefixes: Prefixes)
    requires pos < |s| && Marks(s[pos])
    ensures ReadTerm(s, pos, prefixes) == ReadObject(s, pos) == ReadVerb(s, pos, prefixes)
  {
    NoSkip(s, pos);
  }

  lemma CleanHere(s: string, pos: nat, t: Term, prefixes: Prefixes)
    requires Clean(t) && Here(s, pos, Format(t) + " ")
    ensures ReadTerm(s, pos, prefixes) == ReadVerb(s, pos, prefixes) == Some((t, pos + |Format(t)|))
  {
    FirstOf(t);
    HereSplit(s, pos, Format(t), " ");
    HereFirst(s, pos, Format(t));
    OpenTerm(s, pos, prefixes);
    ObjectReads(s, pos, t);
  }

  lemma CleanShown(t: Term, prefixes: Prefixes)
    requires Clean(t)
    ensures Shown(t, Format, Terms(prefixes)) && Shown(t, Format, Verbs(prefixes))
  {
    FirstOf(t);
    forall s: string, pos: nat | Here(s, pos, Format(t) + " ")
      ensures ReadTerm(s, pos, prefixes) == ReadVerb(s, pos, prefixes) == Some((t, pos + |Format(t)|))
    {
      CleanHere(s, pos, t, prefixes);
    }
  }

  // ---------------------------------------------------------------- objects

  /** Text at `pos` that ends in a space and starts with something else. */
  ghost predicate Word(s: string, pos: nat, text: string) {
    text != "" && Opens(text[0]) && Here(s, pos, text + " ")
  }

  lemma WordEnds(s: string, pos: nat, text: string)
    requires Word(s, pos, text)
    ensures pos + |text| < |s| && s[pos + |text|] == ' ' && Opens(s[pos]) && SkipSpace(s, pos) == pos
  {
    HereSplit(s, pos, text, " ");
    HereFirst(s, pos, text);
    HereFirst(s, pos + |text|, " ");
    NoSkip(s, pos);
  }

  lemma CommaPieces(s: string, pos: nat, a: string, b: string)
    requires Here(s, pos, a + (" , " + b) + " ")
    ensures Here(s, pos, a + " ") && pos + |a| + 2 < |s| && s[pos + |a| + 1] == ',' && s[pos + |a| + 2] == ' '
    ensures Here(s, pos + |a| + 3, b + " ")
  {
    var whole := a + (" , " + b) + " ";
    assert whole == a + (" , " + (b + " "));
    HereSplit(s, pos, a, " , " + (b + " "));
    HereSplit(s, pos + |a|, " , ", b + " ");
    var p := pos + |a|;
    assert s[p + 0] == " , "[0] && s[p + 1] == " , "[1] && s[p + 2] == " , "[2];
    HereExtend(s, pos, a, ' ');
  }

  lemma HereExtend(s: string, pos: nat, a: string, c: char)
    requires Here(s, pos, a) && pos + |a| < |s| && s[pos + |a|] == c
    ensures Here(s, pos, a + [c])
  {
  }

  lemma ObjectsOpen(objects: seq<Term>, show: Printer, read: Forward)
    requires objects != [] && AllShown(objects, show, read)
    ensures ObjectsText(objects, show) != "" && Opens(ObjectsText(objects, show)[0])
  {
    assert Shown(objects[0], show, read);
  }

  lemma {:induction false} ObjectsRead(s: string, pos: nat, objects: seq<Term>, show: Printer, read: Forward, end: nat)
    requires objects != [] && AllShown(objects, show, read) && Here(s, pos, ObjectsText(objects, show) + " ")
    requires end == pos + |ObjectsText(objects, show)| + 1 && end < |s| && s[end] in ";."
    ensures ReadObjects(s, pos, read) == Some((objects, end))
    decreases |objects|, 1
  {
    assert Shown(objects[0], show, read);
    if |objects| == 1 {
      assert ObjectsText(objects, show) == show(objects[0]);
      assert objects == [objects[0]];
      OneObject(s, pos, objects[0], show, read, end);
    } else {
      ManyObjects(s, pos, objects[0], objects[1..], show, read, ObjectsText(objects[1..], show), end);
      assert objects == [objects[0]] + objects[1..];
    }
  }

  lemma OneObject(s: string, pos: nat, o: Term, show: Printer, read: Forward, end: nat)
    requires Shown(o, show, read) && Here(s, pos, show(o) + " ")
    requires end == pos + |show(o)| + 1 && end < |s| && s[end] in ";."
    ensures ReadObjects(s, pos, read) == Some(([o], end))
  {
    WordEnds(s, pos, show(o));
    OneSpace(s, pos + |show(o)|);
  }

  lemma {:induction false} ManyObjects(s: string, pos: nat, o: Term, objects: seq<Term>, show: Printer, read: Forward,
                                       rest: string, end: nat)
    requires Shown(o, show, read) && objects != [] && AllShown(objects, show, read) && rest == ObjectsText(objects, show)
    requires Here(s, pos, show(o) + (" , " + rest) + " ")
    requires end == pos + |show(o)| + 3 + |rest| + 1 && end < |s| && s[end] in ";."
    ensures ReadObjects(s, pos, read) == Some(([o] + objects, end))
    decreases |objects|, 2
  {
    var p := pos + |show(o)|;
    CommaPieces(s, pos, show(o), rest);
    WordEnds(s, pos, show(o));
    OneSpace(s, p);
    ObjectsOpen(objects, show, read);
    WordEnds(s, p + 3, rest);
    OneSpace(s, p + 2);
    ObjectsRead(s, p + 3, objects, show, read, end);
    MoreObjects(s, pos, o, p, objects, end, read);
  }

  lemma MoreObjects(s: string, pos: nat, o: Term, p: nat, rest: seq<Term>, end: nat, read: Forward)
    requires read(s, pos) == Some((o, p)) && SkipSpace(s, p) == p + 1 && Is(s, p + 1, ',') && SkipSpace(s, p + 2) == p + 3
    requires ReadObjects(s, p + 3, read) == Some((rest, end))
    ensures ReadObjects(s, pos, read) == Some(([o] + rest, end))
  {
    assert ReadObjects(s, pos, read) == ObjectsAfter(s, o, p + 1, read);
  }

  // ---------------------------------------------------------------- predicates with their objects

  ghost predicate GroupsShown(m: Groups<Term, Term>, show: Printer, verb: Forward, term: Forward) {
    forall i :: 0 <= i < |m| ==> GroupShown(m[i], show, verb, term)
  }

  ghost predicate GroupShown(g: (Term, seq<Term>), show: Printer, verb: Forward, term: Forward) {
    g.1 != [] && Shown(g.0, show, verb) && AllShown(g.1, show, term)
  }

  /** A predicate, its objects, and what follows behind a space. */
  lemma PropertyPieces(s: string, pos: nat, verb: string, objects: string, end: string)
    requires Here(s, pos, verb + " " + objects + " " + end) && end != ""
    ensures var q := pos + |verb| + 1; var e := q + |objects| + 1;
            Here(s, pos, verb + " ") && Here(s, q, objects + " ") && Here(s, e, end) && e < |s| && s[e] == end[0]
  {
    assert verb + " " + objects + " " + end == (verb + " ") + ((objects + " ") + end);
    HereSplit(s, pos, verb + " ", (objects + " ") + end);
    HereSplit(s, pos + |verb| + 1, objects + " ", end);
    HereFirst(s, pos + |verb| + 1 + |objects| + 1, end);
  }

  /** A predicate at `pos`, its objects behind a space, and a mark at `e`. */
  ghost predicate PropertyAt(s: string, pos: nat, g: (Term, seq<Term>), q: nat, e: nat, verb: Forward, term: Forward) {
    && SkipSpace(s, pos) == pos && pos < |s| && Opens(s[pos]) && verb(s, pos) == Some((g.0, q))
    && SkipSpace(s, q) == q + 1 && ReadObjects(s, q + 1, term) == Some((g.1, e)) && e < |s|
  }

  /** One predicate and its objects are read up to the mark behind them. */
  lemma PropertyRead(s: string, pos: nat, g: (Term, seq<Term>), show: Printer, verb: Forward, term: Forward, end: string)
    requires GroupShown(g, show, verb, term) && end != "" && end[0] in ";."
    requires Here(s, pos, show(g.0) + " " + ObjectsText(g.1, show) + " " + end)
    ensures var q := pos + |show(g.0)|; var e := q + 1 + |ObjectsText(g.1, show)| + 1;
            PropertyAt(s, pos, g, q, e, verb, term) && Here(s, e, end) && s[e] == end[0]
  {
    var key, objects := show(g.0), ObjectsText(g.1, show);
    PropertyPieces(s, pos, key, objects, end);
    assert Shown(g.0, show, verb);
    WordEnds(s, pos, key);
    ObjectsOpen(g.1, show, term);
    WordEnds(s, pos + |key| + 1, objects);
    OneSpace(s, pos + |key|);
    ObjectsRead(s, pos + |key| + 1, g.1, show, term, pos + |key| + 1 + |objects| + 1);
  }

  lemma LastProperty(s: string, pos: nat, g: (Term, seq<Term>), q: nat, e: nat, verb: Forward, term: Forward)
    requires PropertyAt(s, pos, g, q, e, verb, term) && s[e] == '.'
    ensures ReadProperties(s, pos, verb, term) == Some((PairsOf(g.0, g.1), e + 1))
  {
    assert ReadProperty(s, pos, verb, term) == PropertiesAfter(s, PairsOf(g.0, g.1), e, verb, term);
  }

  lemma MoreProperties(s: string, pos: nat, g: (Term, seq<Term>), q: nat, e: nat, verb: Forward, term: Forward,
                       rest: Properties, end: nat)
    requires PropertyAt(s, pos, g, q, e, verb, term) && s[e] == ';'
    requires ReadProperties(s, SkipSpace(s, e + 1), verb, term) == Some((rest, end))
    ensures ReadProperties(s, pos, verb, term) == Some((PairsOf(g.0, g.1) + rest, end))
  {
    assert ReadProperty(s, pos, verb, term) == PropertiesAfter(s, PairsOf(g.0, g.1), e, verb, term);
  }

  lemma MorePieces(s: string, pos: nat, rest: string)
    requires Here(s, pos, ";\n  " + rest + " .") && rest != "" && Opens(rest[0])
    ensures SkipSpace(s, pos + 1) == pos + 4 && Here(s, pos + 4, rest + " .")
  {
    assert ";\n  " + rest + " ." == ";\n  " + (rest + " .");
    HereSplit(s, pos, ";\n  ", rest + " .");
    var mark := ";\n  ";
    assert s[pos + 1] == mark[1] && s[pos + 2] == mark[2] && s[pos + 3] == mark[3];
    HereFirst(s, pos + 4, rest + " .");
    NoSkip(s, pos + 4);
    assert SkipSpace(s, pos + 3) == pos + 4;
    assert SkipSpace(s, pos + 2) == pos + 4;
  }

  lemma PropertiesOpen(m: Groups<Term, Term>, show: Printer, verb: Forward, term: Forward)
    requires m != [] && GroupsShown(m, show, verb, term) && AllFilled(m)
    ensures PropertiesText(m, show) != "" && Opens(PropertiesText(m, show)[0])
  {
    assert GroupShown(m[0], show, verb, term);
    assert Shown(m[0].0, show, verb);
  }

  lemma {:induction false} PropertiesRead(s: string, pos: nat, m: Groups<Term, Term>,
                                          show: Printer, verb: Forward, term: Forward, end: nat)
    requires m != [] && GroupsShown(m, show, verb, term) && AllFilled(m)
    requires Here(s, pos, PropertiesText(m, show) + " .") && end == pos + |PropertiesText(m, show)| + 2
    ensures ReadProperties(s, pos, verb, term) == Some((Spread(m, PairOf), end))
    decreases |m|, 1
  {
    if |m| == 1 {
      OneRead(s, pos, m, show, verb, term, end);
    } else {
      var rest := PropertiesText(m[1..], show);
      var e := MoreMark(s, pos, m, show, rest, end);
      RestRead(s, e, m[1..], show, verb, term, rest, end);
      MoreThen(s, pos, m, show, verb, term, e, end, Spread(m[1..], PairOf));
      SpreadMore(m, PairOf);
    }
  }

  /** Where the semicolon behind the first predicate and its objects stands. */
  lemma MoreMark(s: string, pos: nat, m: Groups<Term, Term>, show: Printer, rest: string, end: nat) returns (e: nat)
    requires |m| > 1 && AllFilled(m) && rest == PropertiesText(m[1..], show)
    requires Here(s, pos, PropertiesText(m, show) + " .") && end == pos + |PropertiesText(m, show)| + 2
    ensures e == pos + |show(m[0].0)| + 1 + |ObjectsText(m[0].1, show)| + 1 && Here(s, e, ";\n  " + rest + " .")
    ensures end == e + 6 + |rest|
  {
    MoreText(m, show, rest);
    e := PropertyMark(s, pos, m[0], show, ";\n  " + rest + " .");
  }

  /** A first predicate, and others behind a semicolon. */
  lemma MoreThen(s: string, pos: nat, m: Groups<Term, Term>, show: Printer, verb: Forward, term: Forward,
                 e: nat, end: nat, properties: Properties)
    requires |m| > 1 && GroupsShown(m, show, verb, term) && AllFilled(m)
    requires Here(s, pos, PropertiesText(m, show) + " .")
    requires e == pos + |show(m[0].0)| + 1 + |ObjectsText(m[0].1, show)| + 1
    requires ReadProperties(s, SkipSpace(s, e + 1), verb, term) == Some((properties, end))
    ensures ReadProperties(s, pos, verb, term) == Some((PairsOf(m[0].0, m[0].1) + properties, end))
  {
    assert GroupShown(m[0], show, verb, term);
    var rest := PropertiesText(m[1..], show);
    MoreText(m, show, rest);
    PropertyThen(s, pos, m[0], show, verb, term, end, e, properties, ";\n  " + rest + " .");
  }

  lemma OneRead(s: string, pos: nat, m: Groups<Term, Term>, show: Printer, verb: Forward, term: Forward, end: nat)
    requires |m| == 1 && GroupsShown(m, show, verb, term) && AllFilled(m)
    requires Here(s, pos, PropertiesText(m, show) + " .") && end == pos + |PropertiesText(m, show)| + 2
    ensures ReadProperties(s, pos, verb, term) == Some((Spread(m, PairOf), end))
  {
    assert GroupShown(m[0], show, verb, term);
    OneText(m, show);
    PropertyLast(s, pos, m[0], show, verb, term);
    SpreadOne(m, PairOf);
  }

  lemma PropertyLast(s: string, pos: nat, g: (Term, seq<Term>), show: Printer, verb: Forward, term: Forward)
    requires GroupShown(g, show, verb, term)
    requires Here(s, pos, show(g.0) + " " + ObjectsText(g.1, show) + " " + ".")
    ensures ReadProperties(s, pos, verb, term) ==
            Some((PairsOf(g.0, g.1), pos + |show(g.0)| + 1 + |ObjectsText(g.1, show)| + 2))
  {
    PropertyRead(s, pos, g, show, verb, term, ".");
    var q := pos + |show(g.0)|;
    LastProperty(s, pos, g, q, q + 1 + |ObjectsText(g.1, show)| + 1, verb, term);
  }

  lemma PropertyMark(s: string, pos: nat, g: (Term, seq<Term>), show: Printer, tail: string) returns (e: nat)
    requires g.1 != [] && Here(s, pos, show(g.0) + " " + ObjectsText(g.1, show) + " " + tail) && tail != ""
    ensures e == pos + |show(g.0)| + 1 + |ObjectsText(g.1, show)| + 1 && Here(s, e, tail)
  {
    PropertyPieces(s, pos, show(g.0), ObjectsText(g.1, show), tail);
    e := pos + |show(g.0)| + 1 + |ObjectsText(g.1, show)| + 1;
  }

  lemma PropertyThen(s: string, pos: nat, g: (Term, seq<Term>), show: Printer, verb: Forward, term: Forward,
                     end: nat, e: nat, properties: Properties, tail: string)
    requires GroupShown(g, show, verb, term) && e == pos + |show(g.0)| + 1 + |ObjectsText(g.1, show)| + 1
    requires Here(s, pos, show(g.0) + " " + ObjectsText(g.1, show) + " " + tail) && tail != "" && tail[0] == ';'
    requires ReadProperties(s, SkipSpace(s, e + 1), verb, term) == Some((properties, end))
    ensures ReadProperties(s, pos, verb, term) == Some((PairsOf(g.0, g.1) + properties, end))
  {
    PropertyRead(s, pos, g, show, verb, term, tail);
    MoreProperties(s, pos, g, pos + |show(g.0)|, e, verb, term, properties, end);
  }

  /** The properties behind a semicolon. */
  lemma {:induction false} RestRead(s: string, e: nat, m: Groups<Term, Term>,
                                    show: Printer, verb: Forward, term: Forward, rest: string, end: nat)
    requires m != [] && GroupsShown(m, show, verb, term) && AllFilled(m) && rest == PropertiesText(m, show)
    requires Here(s, e, ";\n  " + rest + " .") && end == e + 6 + |rest|
    ensures ReadProperties(s, SkipSpace(s, e + 1), verb, term) == Some((Spread(m, PairOf), end))
    decreases |m|, 2
  {
    PropertiesOpen(m, show, verb, term);
    MorePieces(s, e, rest);
    PropertiesRead(s, e + 4, m, show, verb, term, end);
  }

  lemma OneText(m: Groups<Term, Term>, show: Printer)
    requires |m| == 1 && AllFilled(m)
    ensures PropertiesText(m, show) + " ." == show(m[0].0) + " " + ObjectsText(m[0].1, show) + " " + "."
    ensures |PropertiesText(m, show)| == |show(m[0].0)| + 1 + |ObjectsText(m[0].1, show)|
  {
  }

  lemma MoreText(m: Groups<Term, Term>, show: Printer, rest: string)
    requires |m| > 1 && AllFilled(m) && rest == PropertiesText(m[1..], show)
    ensures PropertiesText(m, show) + " ." == show(m[0].0) + " " + ObjectsText(m[0].1, show) + " " + (";\n  " + rest + " .")
    ensures |PropertiesText(m, show)| == |show(m[0].0)| + 1 + |ObjectsText(m[0].1, show)| + 5 + |rest|
  {
  }

  // ---------------------------------------------------------------- blocks

  lemma BlockPieces(s: string, pos: nat, subject: string, properties: string)
    requires Here(s, pos, subject + " " + properties + " .\n")
    ensures Here(s, pos, subject + " ") && Here(s, pos + |subject| + 1, properties + " .")
    ensures var e := pos + |subject| + 1 + |properties| + 2; e < |s| && s[e] == '\n'
  {
    assert subject + " " + properties + " .\n" == (subject + " ") + ((properties + " .") + "\n");
    HereSplit(s, pos, subject + " ", (properties + " .") + "\n");
    HereSplit(s, pos + |subject| + 1, properties + " .", "\n");
    HereFirst(s, pos + |subject| + 1 + |properties| + 2, "\n");
  }

  /** Printing each of the terms of a property is undone by the readers. */
  ghost predicate PropertiesShown(ps: Properties, show: Printer, verb: Forward, term: Forward) {
    forall i :: 0 <= i < |ps| ==> Shown(ps[i].0, show, verb) && Shown(ps[i].1, show, term)
  }

  lemma PushedShown(m: Groups<Term, Term>, k: Term, v: Term, show: Printer, verb: Forward, term: Forward)
    requires GroupsShown(m, show, verb, term) && Shown(k, show, verb) && Shown(v, show, term)
    ensures GroupsShown(Pushed(m, k, v), show, verb, term)
  {
    if m == [] {
      assert GroupShown((k, [v]), show, verb, term);
    } else {
      assert GroupShown(m[0], show, verb, term);
      if m[0].0 == k {
        assert GroupShown((k, m[0].1 + [v]), show, verb, term);
      } else {
        PushedShown(m[1..], k, v, show, verb, term);
      }
    }
  }

  lemma {:induction false} GroupedShown(ps: Properties, show: Printer, verb: Forward, term: Forward)
    requires PropertiesShown(ps, show, verb, term)
    ensures GroupsShown(Grouped(ps), show, verb, term)
  {
    if ps != [] {
      var last := |ps| - 1;
      GroupedShown(ps[..last], show, verb, term);
      PushedShown(Grouped(ps[..last]), ps[last].0, ps[last].1, show, verb, term);
    }
  }

  lemma BlockRead(s: string, pos: nat, subject: Term, ps: Properties, show: Printer, verb: Forward, term: Forward, e: nat)
    requires ps != [] && Shown(subject, show, term) && PropertiesShown(ps, show, verb, term)
    requires Here(s, pos, BlockText(subject, ps, show)) && e + 1 == pos + |BlockText(subject, ps, show)|
    ensures ReadBlock(s, pos, verb, term) == Some((TriplesOf(subject, Spread(Grouped(ps), PairOf)), e))
    ensures e < |s| && s[e] == '\n' && pos < |s| && Opens(s[pos]) && SkipSpace(s, pos) == pos
  {
    GroupedFilled(ps);
    GroupedShown(ps, show, verb, term);
    SubjectRead(s, pos, subject, Grouped(ps), show, verb, term, PropertiesText(Grouped(ps), show), e);
  }

  lemma SubjectRead(s: string, pos: nat, subject: Term, m: Groups<Term, Term>, show: Printer, verb: Forward, term: Forward,
                    text: string, e: nat)
    requires Shown(subject, show, term) && m != [] && GroupsShown(m, show, verb, term) && AllFilled(m)
    requires text == PropertiesText(m, show) && Here(s, pos, show(subject) + " " + text + " .\n")
    requires e == pos + |show(subject)| + 1 + |text| + 2
    ensures ReadBlock(s, pos, verb, term) == Some((TriplesOf(subject, Spread(m, PairOf)), e))
    ensures e < |s| && s[e] == '\n' && pos < |s| && Opens(s[pos]) && SkipSpace(s, pos) == pos
  {
    var first := show(subject);
    var q := pos + |first|;
    BlockPieces(s, pos, first, text);
    WordEnds(s, pos, first);
    PropertiesOpen(m, show, verb, term);
    PropertiesRead(s, q + 1, m, show, verb, term, e);
    HereFirst(s, q + 1, text + " .");
    OneSpace(s, q);
    BlockFrom(s, pos, subject, q, verb, term, Spread(m, PairOf), e);
  }

  lemma BlockFrom(s: string, pos: nat, subject: Term, q: nat, verb: Forward, term: Forward, properties: Properties, e: nat)
    requires SkipSpace(s, pos) == pos && term(s, pos) == Some((subject, q)) && SkipSpace(s, q) == q + 1
    requires ReadProperties(s, q + 1, verb, term) == Some((properties, e))
    ensures ReadBlock(s, pos, verb, term) == Some((TriplesOf(subject, properties), e))
  {
  }

  // ---------------------------------------------------------------- documents

  lemma NotKeyword(s: string, pos: nat, word: string)
    requires pos < |s| && word != "" && s[pos] != word[0]
    ensures !Keyword(s, pos, word)
  {
    if pos + |word| <= |s| {
      assert s[pos..pos + |word|][0] == s[pos];
    }
  }

  lemma NoDirective(s: string, pos: nat)
    requires pos < |s| && Marks(s[pos])
    ensures PrefixWord(s, pos) == 0 && BaseWord(s, pos) == 0
  {
    NotKeyword(s, pos, "@prefix");
    NotKeyword(s, pos, "PREFIX");
    NotKeyword(s, pos, "@base");
    NotKeyword(s, pos, "BASE");
  }

  lemma StatementStep(s: string, pos: nat, prefixes: Prefixes, triples: seq<Triple>, e: nat, rest: seq<Triple>)
    requires pos < |s| && Opens(s[pos]) && SkipSpace(s, pos) == pos && PrefixWord(s, pos) == 0 && BaseWord(s, pos) == 0
    requires ReadBlock(s, pos, Verbs(prefixes), Terms(prefixes)) == Some((triples, e))
    requires ReadStatements(s, e, prefixes) == Some(rest)
    ensures ReadStatements(s, pos, prefixes) == Some(triples + rest)
  {
    assert SkipComments(s, pos) == pos;
  }

  lemma BreakSkipped(s: string, pos: nat, next: nat, prefixes: Prefixes)
    requires pos < |s| && s[pos] == '\n' && next == pos + 1
    ensures ReadStatements(s, pos, prefixes) == ReadStatements(s, next, prefixes)
  {
    assert SkipSpace(s, pos) == SkipSpace(s, next);
    assert SkipComments(s, pos) == SkipComments(s, next);
  }

  ghost predicate BlocksShown(m: Groups<Term, (Term, Term)>, show: Printer, verb: Forward, term: Forward) {
    forall i :: 0 <= i < |m| ==> BlockShown(m[i], show, verb, term)
  }

  ghost predicate BlockShown(g: (Term, Properties), show: Printer, verb: Forward, term: Forward) {
    g.1 != [] && Shown(g.0, show, term) && Marks(show(g.0)[0]) && PropertiesShown(g.1, show, verb, term)
  }

  lemma {:induction false} BlocksRead(s: string, pos: nat, m: Groups<Term, (Term, Term)>, show: Printer, prefixes: Prefixes)
    requires BlocksShown(m, show, Verbs(prefixes), Terms(prefixes)) && forall i :: 0 <= i < |m| ==> m[i].1 != []
    requires Here(s, pos, BlocksText(m, show)) && pos + |BlocksText(m, show)| == |s|
    ensures ReadStatements(s, pos, prefixes) == Some(Listed(m))
    decreases |m|
  {
    if m != [] {
      assert BlockShown(m[0], show, Verbs(prefixes), Terms(prefixes));
      var block := BlockText(m[0].0, m[0].1, show);
      HereSplit(s, pos, block, BlocksText(m[1..], show));
      var next := pos + |block|;
      BlocksRead(s, next, m[1..], show, prefixes);
      BlockThen(s, pos, m[0].0, m[0].1, show, prefixes, next - 1, next, Listed(m[1..]));
    }
  }

  lemma BlockThen(s: string, pos: nat, subject: Term, ps: Properties, show: Printer, prefixes: Prefixes,
                  e: nat, next: nat, rest: seq<Triple>)
    requires ps != [] && Shown(subject, show, Terms(prefixes)) && PropertiesShown(ps, show, Verbs(prefixes), Terms(prefixes))
    requires Marks(show(subject)[0]) && Here(s, pos, BlockText(subject, ps, show))
    requires next == pos + |BlockText(subject, ps, show)| && next == e + 1
    requires ReadStatements(s, next, prefixes) == Some(rest)
    ensures ReadStatements(s, pos, prefixes) == Some(TriplesOf(subject, Spread(Grouped(ps), PairOf)) + rest)
  {
    BlockRead(s, pos, subject, ps, show, Verbs(prefixes), Terms(prefixes), e);
    BreakSkipped(s, e, next, prefixes);
    HereFirst(s, pos, BlockText(subject, ps, show));
    NoDirective(s, pos);
    StatementStep(s, pos, prefixes, TriplesOf(subject, Spread(Grouped(ps), PairOf)), e, rest);
  }

  lemma PushedBlocks(m: Groups<Term, (Term, Term)>, k: Term, v: (Term, Term), show: Printer, verb: Forward, term: Forward)
    requires BlocksShown(m, show, verb, term)
    requires Shown(k, show, term) && Marks(show(k)[0]) && Shown(v.0, show, verb) && Shown(v.1, show, term)
    ensures BlocksShown(Pushed(m, k, v), show, verb, term)
  {
    if m == [] {
      assert BlockShown((k, [v]), show, verb, term);
    } else {
      assert BlockShown(m[0], show, verb, term);
      if m[0].0 == k {
        assert BlockShown((k, m[0].1 + [v]), show, verb, term);
      } else {
        PushedBlocks(m[1..], k, v, show, verb, term);
      }
    }
  }

  lemma {:induction false} SubjectsShown(ts: seq<Triple>, prefixes: Prefixes)
    requires forall t :: t in ts ==> Clean(t.s) && Clean(t.p) && Clean(t.o)
    ensures BlocksShown(Grouped(BySubject(ts)), Format, Verbs(prefixes), Terms(prefixes))
  {
    if ts != [] {
      var last := |ts| - 1;
      var t := ts[last];
      SubjectsShown(ts[..last], prefixes);
      var pairs := BySubject(ts);
      assert pairs[..|pairs| - 1] == BySubject(ts[..last]);
      CleanShown(t.s, prefixes);
      FirstOf(t.s);
      CleanShown(t.p, prefixes);
      CleanShown(t.o, prefixes);
      PushedBlocks(Grouped(BySubject(ts[..last])), t.s, (t.p, t.o), Format, Verbs(prefixes), Terms(prefixes));
    }
  }

  /** Printing clean triples as Turtle and parsing the text gives the triples of the printed blocks:
      a permutation of the list, with every duplicate kept. */
  lemma TurtleRoundTrip(ts: seq<Triple>)
    requires forall t :: t in ts ==> Clean(t.s) && Clean(t.p) && Clean(t.o)
    ensures ReadTurtle(TurtleText(ts)) == Some(Collapsed(ts)) && multiset(Collapsed(ts)) == multiset(ts)
  {
    var m := Grouped(BySubject(ts));
    GroupedFilled(BySubject(ts));
    SubjectsShown(ts, map[]);
    HereWhole(TurtleText(ts));
    BlocksRead(TurtleText(ts), 0, m, Format, map[]);
    CollapsedPermutes(ts);
  }

  // ---------------------------------------------------------------- which terms are safe to print

  /** At its own printed form a term is read as itself exactly if it is clean. */
  lemma TermExact(s: string, pos: nat, t: Term, prefixes: Prefixes)
    requires Here(s, pos, Format(t) + " ")
    ensures var r := ReadTerm(s, pos, prefixes);
            r == ReadVerb(s, pos, prefixes) && ReadsBack(r, pos + |Format(t)|, t, Clean(t))
  {
    FirstOf(t);
    HereSplit(s, pos, Format(t), " ");
    HereFirst(s, pos, Format(t));
    OpenTerm(s, pos, prefixes);
    ObjectReads(s, pos, t);
  }

  /** The printed form of a term is read as the term in every surrounding if and only if it is clean. */
  lemma ShownExactly(t: Term, prefixes: Prefixes)
    ensures Shown(t, Format, Terms(prefixes)) <==> Clean(t)
  {
    if Clean(t) {
      CleanShown(t, prefixes);
    } else {
      var s := Format(t) + " ";
      HereWhole(s);
      TermExact(s, 0, t, prefixes);
      assert Terms(prefixes)(s, 0) == ReadTerm(s, 0, prefixes);
    }
  }

  /** Three printed terms with single spaces between them. */
  ghost predicate TripleAt(s: string, pos: nat, t: Triple, q: nat, r: nat) {
    && q == pos + |Format(t.s)| + 1 && r == q + |Format(t.p)| + 1
    && Here(s, pos, Format(t.s) + " ") && Here(s, q, Format(t.p) + " ") && Here(s, r, Format(t.o) + " ")
  }

  /** If what is read at a printed triple starts with that triple, its terms are clean. */
  lemma BlockStartsClean(s: string, pos: nat, t: Triple, q: nat, r: nat, prefixes: Prefixes, verb: Forward, term: Forward)
    requires verb == Verbs(prefixes) && term == Terms(prefixes)
    requires TripleAt(s, pos, t, q, r) && StartsWith(ReadBlock(s, pos, verb, term), t)
    ensures Clean(t.s) && Clean(t.p) && Clean(t.o)
  {
    var fits1, fits2, fits3 := TripleFits(s, pos, t, q, r, prefixes, verb, term);
    BlockParts(s, pos, t, q, r, verb, term, fits1, fits2, fits3);
  }

  /** The positions and terms of a printed triple are read back as far as the terms fit. */
  ghost predicate Parted(s: string, pos: nat, t: Triple, q: nat, r: nat, verb: Forward, term: Forward,
                         fits1: bool, fits2: bool, fits3: bool)
  {
    && pos < q < r < |s| && s[q] != '.'
    && SkipSpace(s, pos) == pos && SkipSpace(s, q) == q && SkipSpace(s, r) == r
    && SkipSpace(s, q - 1) == q && SkipSpace(s, r - 1) == r
    && ReadsBack(term(s, pos), q - 1, t.s, fits1) && ReadsBack(verb(s, q), r - 1, t.p, fits2)
    && (term(s, r).Some? && term(s, r).value.0 == t.o ==> fits3)
  }

  lemma TripleFits(s: string, pos: nat, t: Triple, q: nat, r: nat, prefixes: Prefixes, verb: Forward, term: Forward)
    returns (fits1: bool, fits2: bool, fits3: bool)
    requires TripleAt(s, pos, t, q, r) && verb == Verbs(prefixes) && term == Terms(prefixes)
    ensures Parted(s, pos, t, q, r, verb, term, fits1, fits2, fits3)
    ensures fits1 && fits2 && fits3 ==> Clean(t.s) && Clean(t.p) && Clean(t.o)
  {
    SpacesAt(s, pos, t, q, r);
    fits1 := TermFits(s, pos, t.s, prefixes, verb, term);
    fits2 := TermFits(s, q, t.p, prefixes, verb, term);
    fits3 := TermFits(s, r, t.o, prefixes, verb, term);
  }

  lemma TermFits(s: string, pos: nat, t: Term, prefixes: Prefixes, verb: Forward, term: Forward) returns (fits: bool)
    requires Here(s, pos, Format(t) + " ") && verb == Verbs(prefixes) && term == Terms(prefixes)
    ensures ReadsBack(verb(s, pos), pos + |Format(t)|, t, fits) && ReadsBack(term(s, pos), pos + |Format(t)|, t, fits)
    ensures fits <==> Clean(t)
  {
    TermExact(s, pos, t, prefixes);
    fits := Clean(t);
  }

  lemma SpacesAt(s: string, pos: nat, t: Triple, q: nat, r: nat)
    requires TripleAt(s, pos, t, q, r)
    ensures pos < q < r < |s| && s[q] != '.'
    ensures SkipSpace(s, pos) == pos && SkipSpace(s, q) == q && SkipSpace(s, r) == r
    ensures SkipSpace(s, q - 1) == q && SkipSpace(s, r - 1) == r
  {
    Starts(s, pos, t.s);
    Starts(s, q, t.p);
    Starts(s, r, t.o);
    SpaceBetween(s, pos, Format(t.s));
    SpaceBetween(s, q, Format(t.p));
  }

  lemma Starts(s: string, pos: nat, t: Term)
    requires Here(s, pos, Format(t) + " ")
    ensures pos < |s| && s[pos] != '.' && SkipSpace(s, pos) == pos
  {
    FirstOf(t);
    HereSplit(s, pos, Format(t), " ");
    HereFirst(s, pos, Format(t));
    NoSkip(s, pos);
  }

  predicate StartsWith(b: Reading<seq<Triple>>, t: Triple) { b.Some? && b.value.0 != [] && b.value.0[0] == t }

  lemma SpaceBetween(s: string, pos: nat, text: string)
    requires Here(s, pos, text + " ") && SkipSpace(s, pos + |text| + 1) == pos + |text| + 1
    ensures SkipSpace(s, pos + |text|) == pos + |text| + 1
  {
    HereSplit(s, pos, text, " ");
    HereFirst(s, pos + |text|, " ");
  }

  lemma BlockParts(s: string, pos: nat, t: Triple, q: nat, r: nat, verb: Forward, term: Forward,
                   fits1: bool, fits2: bool, fits3: bool)
    requires Parted(s, pos, t, q, r, verb, term, fits1, fits2, fits3)
    requires StartsWith(ReadBlock(s, pos, verb, term), t)
    ensures fits1 && fits2 && fits3
  {
    var (subject, p) := term(s, pos).value;
    var (properties, _) := ReadProperties(s, SkipSpace(s, p), verb, term).value;
    FirstEntry(subject, properties, TripleOf);
    PropertyParts(s, t, q, r, verb, term, fits2, fits3);
  }

  lemma FirstEntry<K, V, T>(k: K, vs: seq<V>, f: (K, V) -> T)
    ensures |Entries(k, vs, f)| >= 1 <==> |vs| >= 1
    ensures vs != [] ==> Entries(k, vs, f)[0] == f(k, vs[0])
  {
  }

  lemma PropertyParts(s: string, t: Triple, q: nat, r: nat, verb: Forward, term: Forward, fits2: bool, fits3: bool)
    requires q < r < |s| && s[q] != '.' && SkipSpace(s, q) == q && SkipSpace(s, r) == r && SkipSpace(s, r - 1) == r
    requires ReadsBack(verb(s, q), r - 1, t.p, fits2)
    requires term(s, r).Some? && term(s, r).value.0 == t.o ==> fits3
    requires var ps := ReadProperties(s, q, verb, term);
             ps.Some? && ps.value.0 != [] && ps.value.0[0] == (t.p, t.o)
    ensures fits2 && fits3
  {
    assert ReadProperties(s, q, verb, term) == ReadProperty(s, q, verb, term);
    var (pairs, end) := ReadPairs(s, q, verb, term).value;
    var (p, e) := verb(s, q).value;
    var (objects, _) := ReadObjects(s, SkipSpace(s, e), term).value;
    FirstObject(s, SkipSpace(s, e), term);
    FirstEntry(p, objects, PairOf);
    PairsFirst(s, pairs, end, verb, term);
  }

  lemma PairsFirst(s: string, pairs: Properties, pos: nat, verb: Forward, term: Forward)
    requires pos <= |s| && pairs != [] && PropertiesAfter(s, pairs, pos, verb, term).Some?
    ensures var ps := PropertiesAfter(s, pairs, pos, verb, term).value.0; ps != [] && ps[0] == pairs[0]
  {
  }

  lemma FirstObject(s: string, pos: nat, term: Forward)
    requires ReadObjects(s, pos, term).Some?
    ensures var objects := ReadObjects(s, pos, term).value.0;
            objects != [] && term(s, pos).Some? && objects[0] == term(s, pos).value.0
  {
  }

  lemma PrintedAlone(t: Triple)
    ensures TurtleText([t]) == BlockText(t.s, [(t.p, t.o)], Format)
    ensures BlockText(t.s, [(t.p, t.o)], Format) ==
            Format(t.s) + " " + (Format(t.p) + " " + (Format(t.o) + " .\n"))
    ensures Grouped([(t.p, t.o)]) == [(t.p, [t.o])]
  {
    var properties: Properties := [(t.p, t.o)];
    assert properties[..0] == [] && Grouped(properties) == [(t.p, [t.o])];
    var subjects := [(t.s, (t.p, t.o))];
    assert [t][..0] == [] && BySubject([t]) == [] + subjects;
    assert subjects[..0] == [] && Grouped(subjects) == [(t.s, properties)];
    assert ObjectsText([t.o], Format) == Format(t.o) + "";
    assert PropertiesText([(t.p, [t.o])], Format) == Format(t.p) + " " + ObjectsText([t.o], Format) + "";
    assert BlocksText([(t.s, properties)], Format) == BlockText(t.s, properties, Format) + "";
  }

  lemma AloneAt(s: string, a: string, b: string, c: string)
    requires s == a + " " + (b + " " + (c + " .\n"))
    ensures Here(s, 0, a + " ") && Here(s, |a| + 1, b + " ") && Here(s, |a| + 1 + |b| + 1, c + " ")
  {
    assert s == (a + " ") + ((b + " ") + ((c + " ") + ".\n"));
    HereWhole(s);
    HereSplit(s, 0, a + " ", (b + " ") + ((c + " ") + ".\n"));
    HereSplit(s, |a| + 1, b + " ", (c + " ") + ".\n");
    HereSplit(s, |a| + 1 + |b| + 1, c + " ", ".\n");
  }

  lemma SpreadAlone(t: Triple)
    requires Grouped([(t.p, t.o)]) == [(t.p, [t.o])]
    ensures TriplesOf(t.s, Spread(Grouped([(t.p, t.o)]), PairOf)) == [t]
  {
    var m := [(t.p, [t.o])];
    SpreadOne(m, PairOf);
    assert Entries(t.p, [t.o], PairOf) == [(t.p, t.o)] + Entries(t.p, [], PairOf);
    var properties := [(t.p, t.o)];
    assert TripleOf(t.s, properties[0]) == t && properties[1..] == [];
    assert Entries(t.s, properties, TripleOf) == [TripleOf(t.s, properties[0])] + Entries(t.s, properties[1..], TripleOf);
  }

  predicate AllClean(t: Triple) { Clean(t.s) && Clean(t.p) && Clean(t.o) }

  lemma CleanAlone(t: Triple)
    requires AllClean(t)
    ensures var b := ReadBlock(TurtleText([t]), 0, Verbs(map[]), Terms(map[])); b.Some? && b.value.0 == [t]
  {
    PrintedAlone(t);
    CleanShown(t.s, map[]);
    CleanShown(t.p, map[]);
    CleanShown(t.o, map[]);
    HereWhole(TurtleText([t]));
    BlockRead(TurtleText([t]), 0, t.s, [(t.p, t.o)], Format, Verbs(map[]), Terms(map[]), |TurtleText([t])| - 1);
    SpreadAlone(t);
  }

  lemma AloneClean(t: Triple)
    requires StartsWith(ReadBlock(TurtleText([t]), 0, Verbs(map[]), Terms(map[])), t)
    ensures AllClean(t)
  {
    PrintedAlone(t);
    AloneAt(TurtleText([t]), Format(t.s), Format(t.p), Format(t.o));
    BlockStartsClean(TurtleText([t]), 0, t, |Format(t.s)| + 1, |Format(t.s)| + 1 + |Format(t.p)| + 1, map[],
                     Verbs(map[]), Terms(map[]));
  }

  /** A triple printed alone is read as a block of just that triple if and only if its terms are clean. */
  lemma BlockOfOneExact(t: Triple)
    ensures var b := ReadBlock(TurtleText([t]), 0, Verbs(map[]), Terms(map[]));
            b.Some? && b.value.0 == [t] <==> AllClean(t)
  {
    if AllClean(t) {
      CleanAlone(t);
    } else if StartsWith(ReadBlock(TurtleText([t]), 0, Verbs(map[]), Terms(map[])), t) {
      AloneClean(t);
    }
  }
}
