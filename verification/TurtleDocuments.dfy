/** Whole Turtle texts: declarations, blocks, comments and white space in any order. */
module TurtleDocuments {
  import opened Wrappers
  import opened RdfStore
  import opened RdfText
  import opened RdfTextProofs
  import opened Turtle
  import opened TurtleProofs
  import opened TurtlePrefixes

  /** Declarations are dotted after `@`, and not after the keywords of SPARQL. */
  datatype Part =
    | Define(name: string, iri: string, sparql: bool)
    | Base(iri: string, sparql: bool)
    | Block(subject: Term, properties: Properties)
    | Comment(text: string)
    | Gap(spaces: string)

  function IriText(iri: string): string { "<" + iri + ">" }

  function Closing(sparql: bool): string { if sparql then "\n" else " .\n" }

  /** A declaration behind its keyword. */
  function Declared(front: string, iri: string, sparql: bool): string { front + (" " + (IriText(iri) + Closing(sparql))) }

  function PrefixKeyword(sparql: bool): string { if sparql then "PREFIX" else "@prefix" }

  function BaseKeyword(sparql: bool): string { if sparql then "BASE" else "@base" }

  predicate PartFilled(part: Part) { part.Block? ==> part.properties != [] }

  function PartText(part: Part, show: Printer): string
    requires PartFilled(part)
  {
    match part
    case Define(name, iri, sparql) => PrefixKeyword(sparql) + Declared(" " + name + ":", iri, sparql)
    case Base(iri, sparql) => BaseKeyword(sparql) + Declared("", iri, sparql)
    case Block(subject, properties) => BlockText(subject, properties, show)
    case Comment(text) => "#" + text + "\n"
    case Gap(spaces) => spaces
  }

  /** The prefixes behind the part: a new declaration replaces an old one. */
  function Behind(part: Part, prefixes: Prefixes): Prefixes {
    if part.Define? then prefixes[part.name := part.iri] else prefixes
  }

  function PartTriples(part: Part): seq<Triple> {
    if part.Block? then TriplesOf(part.subject, Spread(Grouped(part.properties), PairOf)) else []
  }

  predicate AllPartsFilled(parts: seq<Part>) { forall i :: 0 <= i < |parts| ==> PartFilled(parts[i]) }

  function PartsText(parts: seq<Part>, prefixes: Prefixes, style: Style): string
    requires AllPartsFilled(parts)
  {
    if parts == [] then ""
    else PartText(parts[0], With(style, prefixes)) + PartsText(parts[1..], Behind(parts[0], prefixes), style)
  }

  function PartsTriples(parts: seq<Part>): seq<Triple> {
    if parts == [] then [] else PartTriples(parts[0]) + PartsTriples(parts[1..])
  }

  /** The part can be written as it is: its terms by the prefixes declared up to here. */
  ghost predicate PartFits(part: Part, prefixes: Prefixes, style: Style) {
    match part
    case Define(name, iri, _) => CleanName(name) && CleanIri(iri)
    case Base(iri, _) => CleanIri(iri)
    case Block(subject, ps) =>
      && ps != [] && Faithful(subject, style(prefixes, subject), prefixes)
      && forall i :: 0 <= i < |ps| ==>
           Faithful(ps[i].0, style(prefixes, ps[i].0), prefixes) && Faithful(ps[i].1, style(prefixes, ps[i].1), prefixes)
    case Comment(text) => '\n' !in text
    case Gap(spaces) => forall c :: c in spaces ==> Space(c)
  }

  ghost predicate PartsFit(parts: seq<Part>, prefixes: Prefixes, style: Style) {
    parts == [] || (PartFits(parts[0], prefixes, style) && PartsFit(parts[1..], Behind(parts[0], prefixes), style))
  }

  lemma {:induction false} FittingFilled(parts: seq<Part>, prefixes: Prefixes, style: Style)
    requires PartsFit(parts, prefixes, style)
    ensures AllPartsFilled(parts)
  {
    if parts != [] {
      FittingFilled(parts[1..], Behind(parts[0], prefixes), style);
      forall i | 0 <= i < |parts| ensures PartFilled(parts[i]) {
        if i > 0 {
          assert parts[i] == parts[1..][i - 1];
        }
      }
    }
  }

  // ---------------------------------------------------------------- white space and comments

  /** Reading goes on alike from positions with only white space between them. */
  lemma SameFrom(s: string, a: nat, b: nat, prefixes: Prefixes)
    requires SkipSpace(s, a) == SkipSpace(s, b)
    ensures ReadStatements(s, a, prefixes) == ReadStatements(s, b, prefixes)
  {
    assert SkipComments(s, a) == SkipComments(s, b);
  }

  lemma {:induction false} SpacesHere(s: string, pos: nat, spaces: string, next: nat)
    requires Here(s, pos, spaces) && next == pos + |spaces| && forall c :: c in spaces ==> Space(c)
    ensures SkipSpace(s, pos) == SkipSpace(s, next)
    decreases |spaces|
  {
    if spaces != "" {
      assert s[pos + 0] == spaces[0] && spaces[0] in spaces;
      assert spaces == [spaces[0]] + spaces[1..];
      HereSplit(s, pos, [spaces[0]], spaces[1..]);
      assert forall c :: c in spaces[1..] ==> c in spaces;
      SpacesHere(s, pos + 1, spaces[1..], next);
    }
  }

  lemma {:induction false} AfterLineHere(s: string, pos: nat, text: string, next: nat)
    requires Here(s, pos, text + "\n") && '\n' !in text && next == pos + |text| + 1
    ensures pos < |s| && AfterLine(s, pos) == next
    decreases |text|
  {
    assert s[pos + 0] == (text + "\n")[0];
    if text != "" {
      assert text + "\n" == [text[0]] + (text[1..] + "\n");
      HereSplit(s, pos, [text[0]], text[1..] + "\n");
      assert text[0] in text && forall c :: c in text[1..] ==> c in text;
      AfterLineHere(s, pos + 1, text[1..], next);
    }
  }

  /** A comment is skipped, whatever it says. */
  lemma CommentSkipped(s: string, pos: nat, text: string, next: nat, prefixes: Prefixes)
    requires Here(s, pos, "#" + text + "\n") && '\n' !in text && next == pos + 1 + |text| + 1
    ensures ReadStatements(s, pos, prefixes) == ReadStatements(s, next, prefixes)
    ensures pos < |s| && s[pos] == '#'
  {
    assert "#" + text + "\n" == ("#" + text) + "\n";
    HereFirst(s, pos, "#" + text + "\n");
    AfterLineHere(s, pos, "#" + text, next);
    NoSkip(s, pos);
    assert SkipComments(s, pos) == SkipComments(s, AfterLine(s, pos));
  }

  // ---------------------------------------------------------------- declarations

  lemma KeywordHere(s: string, pos: nat, word: string)
    requires Here(s, pos, word + " ")
    ensures Keyword(s, pos, word)
  {
    HereSplit(s, pos, word, " ");
    HereSlice(s, pos, word);
    HereFirst(s, pos + |word|, " ");
  }

  /** An IRI behind a space, and the closing of its declaration: reading ends somewhere in the white
      space behind the closing. */
  lemma TargetReads(s: string, pos: nat, iri: string, sparql: bool, next: nat)
    requires CleanIri(iri) && Here(s, pos, " " + (IriText(iri) + Closing(sparql)))
    requires next == pos + 1 + |IriText(iri)| + |Closing(sparql)| && (sparql ==> !Is(s, SkipSpace(s, next), '.'))
    ensures var r := ReadTarget(s, pos); r.Some? && r.value.0 == iri && SkipSpace(s, r.value.1) == SkipSpace(s, next)
  {
    HereSplit(s, pos, " ", IriText(iri) + Closing(sparql));
    HereSplit(s, pos + 1, IriText(iri), Closing(sparql));
    HereFirst(s, pos, " ");
    HereFirst(s, pos + 1, IriText(iri));
    OneSpace(s, pos);
    IriReads(s, pos + 1, iri);
    ClosingReads(s, pos + 1 + |iri| + 2, sparql, next);
  }

  lemma ClosingReads(s: string, p: nat, sparql: bool, next: nat)
    requires Here(s, p, Closing(sparql)) && next == p + |Closing(sparql)|
    requires sparql ==> !Is(s, SkipSpace(s, next), '.')
    ensures var q := SkipSpace(s, p); SkipSpace(s, if Is(s, q, '.') then q + 1 else q) == SkipSpace(s, next)
  {
    var text := Closing(sparql);
    assert s[p + 0] == text[0];
    if sparql {
      SkipTwice(s, p);
    } else {
      assert s[p + 1] == text[1] && s[p + 2] == text[2];
      NoSkip(s, p + 1);
      assert SkipSpace(s, p) == p + 1;
      assert SkipSpace(s, p + 2) == SkipSpace(s, next);
    }
  }

  lemma SkipTwice(s: string, pos: nat)
    ensures SkipSpace(s, SkipSpace(s, pos)) == SkipSpace(s, pos)
  {
  }

  lemma {:induction false} ColonHere(s: string, pos: nat, name: string)
    requires Here(s, pos, name + ":") && ':' !in name
    ensures ColonAt(s, pos) == pos + |name|
    decreases |name|
  {
    assert s[pos + 0] == (name + ":")[0];
    if name != "" {
      assert name + ":" == [name[0]] + (name[1..] + ":");
      HereSplit(s, pos, [name[0]], name[1..] + ":");
      assert name[0] in name && forall c :: c in name[1..] ==> c in name;
      ColonHere(s, pos + 1, name[1..]);
    }
  }

  lemma LabelHere(s: string, pos: nat, name: string)
    requires Here(s, pos, " " + name + ":") && CleanName(name)
    ensures SkipSpace(s, pos) == pos + 1 && ColonAt(s, pos + 1) == pos + 1 + |name| && pos + 1 + |name| < |s|
    ensures s[pos + 1..pos + 1 + |name|] == name
  {
    assert " " + name + ":" == " " + (name + ":");
    HereSplit(s, pos, " ", name + ":");
    HereFirst(s, pos, " ");
    HereFirst(s, pos + 1, name + ":");
    if name != "" {
      assert (name + ":")[0] == name[0];
    }
    OneSpace(s, pos);
    ColonHere(s, pos + 1, name);
    HereSplit(s, pos + 1, name, ":");
    HereSlice(s, pos + 1, name);
  }

  lemma DefinitionReads(s: string, pos: nat, name: string, iri: string, sparql: bool, next: nat)
    requires CleanName(name) && CleanIri(iri) && Here(s, pos, Declared(" " + name + ":", iri, sparql))
    requires next == pos + |Declared(" " + name + ":", iri, sparql)| && (sparql ==> !Is(s, SkipSpace(s, next), '.'))
    ensures var r := ReadDeclaration(s, pos);
            r.Some? && r.value.0 == (name, iri) && SkipSpace(s, r.value.1) == SkipSpace(s, next)
  {
    var front := " " + name + ":";
    HereSplit(s, pos, front, " " + (IriText(iri) + Closing(sparql)));
    LabelHere(s, pos, name);
    TargetReads(s, pos + |front|, iri, sparql, next);
  }

  lemma PrefixKeywordHere(s: string, pos: nat, sparql: bool)
    requires Here(s, pos, PrefixKeyword(sparql) + " ")
    ensures pos < |s| && PrefixWord(s, pos) == |PrefixKeyword(sparql)| && s[pos] in "@P"
  {
    var word := PrefixKeyword(sparql);
    KeywordHere(s, pos, word);
    HereFirst(s, pos, word + " ");
    if sparql {
      NotKeyword(s, pos, "@prefix");
    }
  }

  lemma BaseKeywordHere(s: string, pos: nat, sparql: bool)
    requires Here(s, pos, BaseKeyword(sparql) + " ")
    ensures pos < |s| && PrefixWord(s, pos) == 0 && BaseWord(s, pos) == |BaseKeyword(sparql)| && s[pos] in "@B"
  {
    var word := BaseKeyword(sparql);
    KeywordHere(s, pos, word);
    HereFirst(s, pos, word + " ");
    NotKeyword(s, pos, "PREFIX");
    if sparql {
      NotKeyword(s, pos, "@base");
      NotKeyword(s, pos, "@prefix");
    } else {
      assert s[pos + 1] == word[1];
      NotPrefix(s, pos);
    }
  }

  lemma NotPrefix(s: string, pos: nat)
    requires pos + 1 < |s| && s[pos + 1] == 'b'
    ensures !Keyword(s, pos, "@prefix")
  {
    if pos + 7 <= |s| {
      assert s[pos..pos + 7][1] == 'b';
    }
  }

  /** A keyword, and behind it a text that starts with a space. */
  lemma WordThen(s: string, pos: nat, word: string, rest: string, at: nat)
    requires Here(s, pos, word + rest) && rest != "" && rest[0] == ' ' && at == pos + |word|
    ensures Here(s, pos, word + " ") && Here(s, at, rest)
  {
    HereSplit(s, pos, word, rest);
    HereFirst(s, at, rest);
    HereExtend(s, pos, word, ' ');
  }

  lemma Undisturbed(s: string, pos: nat)
    requires pos < |s| && !Space(s[pos]) && s[pos] != '#'
    ensures SkipComments(s, pos) == pos
  {
    NoSkip(s, pos);
  }

  lemma DefinedFrom(s: string, pos: nat, name: string, iri: string, at: nat, next: nat, prefixes: Prefixes)
    requires pos < |s| && !Space(s[pos]) && s[pos] != '#' && PrefixWord(s, pos) > 0 && at == pos + PrefixWord(s, pos) <= |s|
    requires var r := ReadDeclaration(s, at);
             r.Some? && r.value.0 == (name, iri) && SkipSpace(s, r.value.1) == SkipSpace(s, next)
    ensures ReadStatements(s, pos, prefixes) == ReadStatements(s, next, prefixes[name := iri])
  {
    SameFrom(s, ReadDeclaration(s, at).value.1, next, prefixes[name := iri]);
    Undisturbed(s, pos);
  }

  lemma BasedFrom(s: string, pos: nat, iri: string, at: nat, next: nat, prefixes: Prefixes)
    requires pos < |s| && !Space(s[pos]) && s[pos] != '#' && PrefixWord(s, pos) == 0
    requires BaseWord(s, pos) > 0 && at == pos + BaseWord(s, pos) <= |s|
    requires var r := ReadTarget(s, at); r.Some? && r.value.0 == iri && SkipSpace(s, r.value.1) == SkipSpace(s, next)
    ensures ReadStatements(s, pos, prefixes) == ReadStatements(s, next, prefixes)
  {
    SameFrom(s, ReadTarget(s, at).value.1, next, prefixes);
    Undisturbed(s, pos);
  }

  /** A declaration gives its prefix the IRI from there on, and replaces what the prefix meant before. */
  lemma DefineStep(s: string, pos: nat, name: string, iri: string, sparql: bool, next: nat, prefixes: Prefixes)
    requires CleanName(name) && CleanIri(iri)
    requires Here(s, pos, PrefixKeyword(sparql) + Declared(" " + name + ":", iri, sparql))
    requires next == pos + |PrefixKeyword(sparql)| + |Declared(" " + name + ":", iri, sparql)|
    requires sparql ==> !Is(s, SkipSpace(s, next), '.')
    ensures ReadStatements(s, pos, prefixes) == ReadStatements(s, next, prefixes[name := iri])
    ensures pos < |s| && s[pos] in "@P"
  {
    var at := pos + |PrefixKeyword(sparql)|;
    WordThen(s, pos, PrefixKeyword(sparql), Declared(" " + name + ":", iri, sparql), at);
    PrefixKeywordHere(s, pos, sparql);
    DefinitionReads(s, at, name, iri, sparql, next);
    DefinedFrom(s, pos, name, iri, at, next, prefixes);
  }

  /** The base is read and not used. */
  lemma BaseStep(s: string, pos: nat, iri: string, sparql: bool, next: nat, prefixes: Prefixes)
    requires CleanIri(iri) && Here(s, pos, BaseKeyword(sparql) + Declared("", iri, sparql))
    requires next == pos + |BaseKeyword(sparql)| + |Declared("", iri, sparql)|
    requires sparql ==> !Is(s, SkipSpace(s, next), '.')
    ensures ReadStatements(s, pos, prefixes) == ReadStatements(s, next, prefixes)
    ensures pos < |s| && s[pos] in "@B"
  {
    var at := pos + |BaseKeyword(sparql)|;
    WordThen(s, pos, BaseKeyword(sparql), Declared("", iri, sparql), at);
    BaseKeywordHere(s, pos, sparql);
    assert Declared("", iri, sparql) == " " + (IriText(iri) + Closing(sparql));
    TargetReads(s, at, iri, sparql, next);
    BasedFrom(s, pos, iri, at, next, prefixes);
  }

  // ---------------------------------------------------------------- blocks

  lemma BlockStep(s: string, pos: nat, subject: Term, ps: Properties, style: Style, prefixes: Prefixes, e: nat, next: nat)
    requires PartFits(Block(subject, ps), prefixes, style)
    requires Here(s, pos, BlockText(subject, ps, With(style, prefixes)))
    requires next == pos + |BlockText(subject, ps, With(style, prefixes))| && next == e + 1
    ensures pos < |s| && Opens(s[pos])
    ensures forall rest :: ReadStatements(s, next, prefixes) == Some(rest) ==>
              ReadStatements(s, pos, prefixes) == Some(PartTriples(Block(subject, ps)) + rest)
  {
    var show := With(style, prefixes);
    FaithfulSound(subject, style, prefixes);
    forall i | 0 <= i < |ps|
      ensures Shown(ps[i].0, show, Verbs(prefixes)) && Shown(ps[i].1, show, Terms(prefixes))
    {
      FaithfulSound(ps[i].0, style, prefixes);
      FaithfulSound(ps[i].1, style, prefixes);
    }
    BlockRead(s, pos, subject, ps, show, Verbs(prefixes), Terms(prefixes), e);
    BreakSkipped(s, e, next, prefixes);
    StartsBlock(s, pos, subject, ps, show, prefixes);
    forall rest | ReadStatements(s, next, prefixes) == Some(rest)
      ensures ReadStatements(s, pos, prefixes) == Some(PartTriples(Block(subject, ps)) + rest)
    {
      StatementStep(s, pos, prefixes, PartTriples(Block(subject, ps)), e, rest);
    }
  }

  lemma StartsBlock(s: string, pos: nat, subject: Term, ps: Properties, show: Printer, prefixes: Prefixes)
    requires Sound(subject, show, prefixes) && ps != [] && Here(s, pos, BlockText(subject, ps, show))
    ensures PrefixWord(s, pos) == 0 && BaseWord(s, pos) == 0
  {
    GroupedFilled(ps);
    BlockPieces(s, pos, show(subject), PropertiesText(Grouped(ps), show));
  }

  // ---------------------------------------------------------------- whole texts

  /** The text from `pos` on is that of the parts. */
  ghost predicate RestIs(s: string, pos: nat, parts: seq<Part>, prefixes: Prefixes, style: Style) {
    && PartsFit(parts, prefixes, style) && AllPartsFilled(parts)
    && Here(s, pos, PartsText(parts, prefixes, style)) && pos + |PartsText(parts, prefixes, style)| == |s|
  }

  lemma FirstPart(s: string, pos: nat, parts: seq<Part>, prefixes: Prefixes, style: Style) returns (next: nat)
    requires parts != [] && RestIs(s, pos, parts, prefixes, style)
    ensures next == pos + |PartText(parts[0], With(style, prefixes))| <= |s|
    ensures Here(s, pos, PartText(parts[0], With(style, prefixes)))
    ensures RestIs(s, next, parts[1..], Behind(parts[0], prefixes), style)
  {
    var first, rest := PartText(parts[0], With(style, prefixes)), PartsText(parts[1..], Behind(parts[0], prefixes), style);
    next := pos + |first|;
    FittingFilled(parts[1..], Behind(parts[0], prefixes), style);
    TextSplit(s, pos, first, rest, PartsText(parts, prefixes, style), next);
  }

  lemma TextSplit(s: string, pos: nat, a: string, b: string, whole: string, next: nat)
    requires whole == a + b && Here(s, pos, whole) && pos + |whole| == |s| && next == pos + |a|
    ensures Here(s, pos, a) && Here(s, next, b) && next + |b| == |s|
  {
    HereSplit(s, pos, a, b);
  }

  ghost predicate PartRead(s: string, pos: nat, part: Part, next: nat, prefixes: Prefixes) {
    forall rest :: ReadStatements(s, next, Behind(part, prefixes)) == Some(rest) ==>
      ReadStatements(s, pos, prefixes) == Some(PartTriples(part) + rest)
  }

  lemma PartStep(s: string, pos: nat, part: Part, next: nat, prefixes: Prefixes, style: Style)
    requires PartFits(part, prefixes, style) && PartFilled(part)
    requires Here(s, pos, PartText(part, With(style, prefixes))) && next == pos + |PartText(part, With(style, prefixes))|
    requires !Is(s, SkipSpace(s, next), '.')
    ensures PartRead(s, pos, part, next, prefixes) && !Is(s, SkipSpace(s, pos), '.')
  {
    assert forall rest: seq<Triple> :: [] + rest == rest;
    match part
    case Define(name, iri, sparql) =>
      DefineStep(s, pos, name, iri, sparql, next, prefixes);
      NoSkip(s, pos);
    case Base(iri, sparql) =>
      BaseStep(s, pos, iri, sparql, next, prefixes);
      NoSkip(s, pos);
    case Block(subject, ps) =>
      assert next > pos by { HereFirst(s, pos, BlockText(subject, ps, With(style, prefixes))); }
      BlockStep(s, pos, subject, ps, style, prefixes, next - 1, next);
      NoSkip(s, pos);
    case Comment(text) =>
      CommentSkipped(s, pos, text, next, prefixes);
      NoSkip(s, pos);
    case Gap(spaces) =>
      SpacesHere(s, pos, spaces, next);
      SameFrom(s, pos, next, prefixes);
  }

  /** A text of declarations, blocks, comments and white space, with terms written in full or by
      whatever prefixes are declared at their place, is read as the triples of its blocks. */
  lemma {:induction false} PartsRead(s: string, pos: nat, parts: seq<Part>, prefixes: Prefixes, style: Style)
    requires RestIs(s, pos, parts, prefixes, style)
    ensures ReadStatements(s, pos, prefixes) == Some(PartsTriples(parts)) && !Is(s, SkipSpace(s, pos), '.')
    decreases |parts|
  {
    if parts != [] {
      var next := FirstPart(s, pos, parts, prefixes, style);
      PartsRead(s, next, parts[1..], Behind(parts[0], prefixes), style);
      PartStep(s, pos, parts[0], next, prefixes, style);
    }
  }

  lemma WholeTextRead(parts: seq<Part>, style: Style)
    requires PartsFit(parts, map[], style)
    ensures AllPartsFilled(parts) && ReadTurtle(PartsText(parts, map[], style)) == Some(PartsTriples(parts))
  {
    FittingFilled(parts, map[], style);
    HereWhole(PartsText(parts, map[], style));
    PartsRead(PartsText(parts, map[], style), 0, parts, map[], style);
  }
}
