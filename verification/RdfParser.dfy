/** The parser object of the RDF readers, and the loops that print and parse whole documents. */
module RdfParserCode {
  import opened Wrappers
  import opened RdfStore
  import opened RdfText
  import opened RdfTextProofs
  import opened Turtle
  import opened TurtleProofs

  class Parser {
    const input: string
    var pos: nat

    predicate Valid()
      reads this
    {
      pos <= |input|
    }

    constructor (input: string)
      ensures Valid() && this.input == input && pos == 0
    {
      this.input := input;
      pos := 0;
    }

    /** The outcome is the prescribed one, and the position is behind what was read. */
    ghost predicate Did<T>(r: Option<T>, spec: Reading<T>)
      reads this
    {
      Valid() && match spec case None => r.None? case Some((x, p)) => r == Some(x) && pos == p
    }

    predicate Next(c: char)
      reads this
    {
      Is(input, pos, c)
    }

    method Bump() returns (c: Option<char>)
      requires Valid()
      modifies this`pos
      ensures Valid()
      ensures if old(pos) < |input| then c == Some(input[old(pos)]) && pos == old(pos) + 1 else c == None && pos == old(pos)
    {
      if pos == |input| {
        return None;
      }
      c := Some(input[pos]);
      pos := pos + 1;
    }

    method ExpectChar(c: char) returns (ok: bool)
      requires Valid()
      modifies this`pos
      ensures Valid() && ok == Is(input, old(pos), c) && pos == if ok then old(pos) + 1 else old(pos)
    {
      ok := Next(c);
      if ok {
        var _ := Bump();
      }
    }

    method SkipWs()
      requires Valid()
      modifies this`pos
      ensures Valid() && pos == SkipSpace(input, old(pos))
    {
      while pos < |input| && Space(input[pos])
        invariant Valid() && SkipSpace(input, pos) == SkipSpace(input, old(pos))
      {
        var _ := Bump();
      }
    }

    method SkipLine()
      requires Valid() && pos < |input|
      modifies this`pos
      ensures Valid() && pos == AfterLine(input, old(pos))
    {
      while pos < |input| && input[pos] != '\n'
        invariant Valid() && old(pos) <= pos
        invariant if pos < |input| then AfterLine(input, pos) == AfterLine(input, old(pos)) else pos == AfterLine(input, old(pos))
      {
        var _ := Bump();
      }
      var _ := Bump();
    }

    method SkipWsAndComments()
      requires Valid()
      modifies this`pos
      ensures Valid() && pos == SkipComments(input, old(pos))
    {
      SkipWs();
      while Next('#')
        invariant Valid() && pos == SkipSpace(input, pos) && SkipComments(input, pos) == SkipComments(input, old(pos))
        decreases |input| - pos
      {
        SkipLine();
        SkipWs();
      }
    }

    method ParseIri() returns (r: Option<string>)
      requires Valid()
      modifies this`pos
      ensures Did(r, ReadIri(input, old(pos)))
    {
      var ok := ExpectChar('<');
      if !ok {
        return None;
      }
      var start := pos;
      while pos < |input| && input[pos] != '>'
        invariant start <= pos && Valid() && IriEnd(input, pos) == IriEnd(input, start)
      {
        var c := Bump();
        if c == Some('\\') {
          var _ := Bump();
        }
      }
      r := Some(input[start..pos]);
      ok := ExpectChar('>');
      if !ok {
        r := None;
      }
    }

    method ParsePnameLocal() returns (name: string)
      requires Valid()
      modifies this`pos
      ensures Valid() && pos == LabelEnd(input, old(pos)) && name == input[old(pos)..pos]
    {
      name := "";
      while pos < |input| && !LabelStop(input[pos])
        invariant old(pos) <= pos && Valid() && LabelEnd(input, pos) == LabelEnd(input, old(pos))
        invariant name == input[old(pos)..pos]
      {
        name := name + [input[pos]];
        var _ := Bump();
      }
    }

    /** A blank node label behind `_:`. */
    method ParseBlank() returns (r: Option<Term>)
      requires Valid()
      modifies this`pos
      ensures Did(r, ReadBlank(input, old(pos)))
    {
      var ok := ExpectChar('_');
      if ok {
        ok := ExpectChar(':');
      }
      if !ok {
        return None;
      }
      var name := ParsePnameLocal();
      r := Some(Blank(name));
    }

    method ParsePrefixedName() returns (r: Option<(string, string)>)
      requires Valid()
      modifies this`pos
      ensures Did(r, ReadPrefixed(input, old(pos)))
    {
      var prefix := "";
      while pos < |input| && input[pos] != ':'
        invariant old(pos) <= pos && Valid() && PrefixEnd(input, pos) == PrefixEnd(input, old(pos))
        invariant prefix == input[old(pos)..pos]
      {
        if LabelStop(input[pos]) {
          return None;
        }
        prefix := prefix + [input[pos]];
        var _ := Bump();
      }
      var ok := ExpectChar(':');
      if !ok {
        return None;
      }
      var local := ParsePnameLocal();
      r := Some((prefix, local));
    }

    // -------------------------------------------------------------- literals

    /** The code point that up to `width` hexadecimal digits name. */
    method ParseCode(width: nat) returns (r: Option<string>)
      requires Valid()
      modifies this`pos
      ensures Did(r, ReadCode(input, old(pos), width))
    {
      var hex := "";
      var i := 0;
      while i < width
        invariant 0 <= i <= width && Valid() && old(pos) <= pos && hex == input[old(pos)..pos]
        invariant pos == if old(pos) + i <= |input| then old(pos) + i else |input|
      {
        var c := Bump();
        if c.Some? {
          hex := hex + [c.value];
        }
        i := i + 1;
      }
      var v := ParseHex(hex);
      r := if v.None? then None else Some(CodePoint(v.value));
    }

    method ParseEscape() returns (r: Option<string>)
      requires Valid()
      modifies this`pos
      ensures Did(r, ReadEscape(input, old(pos)))
    {
      var next := Bump();
      if next.None? {
        return None;
      }
      match next.value {
        case 'n' => r := Some("\n");
        case 'r' => r := Some("\r");
        case 't' => r := Some("\t");
        case 'u' => r := ParseCode(4);
        case 'U' => r := ParseCode(8);
        case c => r := Some(if c in "\"\\'" then [c] else ['\\', c]);
      }
    }

    /** The characters up to the closing quote. */
    method ParseChars(quote: char) returns (r: Option<string>)
      requires Valid()
      modifies this`pos
      ensures Did(r, ReadChars(input, old(pos), quote))
    {
      var text := "";
      ghost var whole := ReadChars(input, pos, quote);
      PrependedNothing(whole);
      while true
        invariant Valid() && Prepended(text, ReadChars(input, pos, quote)) == whole
        decreases |input| - pos
      {
        ghost var rest := ReadChars(input, pos, quote);
        var c := Bump();
        if c.None? {
          return None;
        }
        if c.value == quote {
          assert text + "" == text;
          return Some(text);
        }
        var piece := Some([c.value]);
        if c.value == '\\' {
          piece := ParseEscape();
        }
        if piece.None? {
          return None;
        }
        PrependedTwice(text, piece.value, ReadChars(input, pos, quote));
        text := text + piece.value;
      }
    }

    method ParseTag() returns (r: Option<Option<string>>)
      requires Valid()
      modifies this`pos
      ensures Did(r, ReadTag(input, old(pos)))
    {
      if Next('@') {
        var _ := Bump();
        var start := pos;
        var lang := "@";
        while pos < |input| && TagChar(input[pos])
          invariant start <= pos && Valid() && TagEnd(input, pos) == TagEnd(input, start)
          invariant lang == "@" + input[start..pos]
        {
          lang := lang + [input[pos]];
          var _ := Bump();
        }
        r := Some(Some(lang));
      } else if Next('^') {
        var _ := Bump();
        var ok := ExpectChar('^');
        if !ok {
          return None;
        }
        var datatype' := ParseIri();
        r := if datatype'.None? then None else Some(datatype');
      } else {
        r := Some(None);
      }
    }

    method ParseLiteral() returns (r: Option<Term>)
      requires Valid() && pos < |input|
      modifies this`pos
      ensures Did(r, ReadLiteral(input, old(pos)))
    {
      var quote := Bump();
      var text := ParseChars(quote.value);
      if text.None? {
        return None;
      }
      var tag := ParseTag();
      r := if tag.None? then None else Some(Literal(text.value, tag.value));
    }

    // -------------------------------------------------------------- N-Triples terms

    method ParseUri() returns (r: Option<Term>)
      requires Valid()
      modifies this`pos
      ensures Did(r, AsUri(ReadIri(input, old(pos))))
    {
      var iri := ParseIri();
      r := if iri.None? then None else Some(Uri(iri.value));
    }

    method ParseLocal() returns (r: Option<Term>)
      requires Valid()
      modifies this`pos
      ensures Did(r, ReadLocal(input, old(pos)))
    {
      var name := ParsePrefixedName();
      r := if name.None? then None else Some(Uri(name.value.1));
    }

    method ParseSubject() returns (r: Option<Term>)
      requires Valid()
      modifies this`pos
      ensures Did(r, ReadSubject(input, SkipSpace(input, old(pos))))
    {
      SkipWs();
      if pos == |input| {
        r := None;
      } else if input[pos] == '<' {
        r := ParseUri();
      } else if input[pos] == '_' {
        r := ParseBlank();
      } else if Letter(input[pos]) || input[pos] == ':' {
        r := ParseLocal();
      } else {
        r := None;
      }
    }

    method ParseIriOrA() returns (r: Option<Term>)
      requires Valid()
      modifies this`pos
      ensures Did(r, ReadPredicate(input, SkipSpace(input, old(pos))))
    {
      SkipWs();
      if TypeKeyword(input, pos) {
        var _ := Bump();
        r := Some(Uri(RDF_TYPE));
      } else if pos == |input| {
        r := None;
      } else if input[pos] == '<' {
        r := ParseUri();
      } else if Letter(input[pos]) || input[pos] == ':' {
        r := ParseLocal();
      } else {
        r := None;
      }
    }

    method ParseObject() returns (r: Option<Term>)
      requires Valid()
      modifies this`pos
      ensures Did(r, ReadObject(input, SkipSpace(input, old(pos))))
    {
      SkipWs();
      if Next('"') || Next('\'') {
        r := ParseLiteral();
      } else {
        SkipTwice(input, pos);
        r := ParseSubject();
      }
    }

    // -------------------------------------------------------------- Turtle

    method ParseTerm(prefixes: Prefixes) returns (r: Option<Term>)
      requires Valid()
      modifies this`pos
      ensures Did(r, ReadTerm(input, old(pos), prefixes))
    {
      SkipWs();
      if pos == |input| {
        r := None;
      } else if input[pos] == '<' {
        r := ParseUri();
      } else if input[pos] == '_' {
        r := ParseBlank();
      } else if input[pos] == '"' || input[pos] == '\'' {
        r := ParseLiteral();
      } else if Letter(input[pos]) || input[pos] == ':' {
        var name := ParsePrefixedName();
        if name.None? || name.value.0 !in prefixes {
          r := None;
        } else {
          r := Some(Uri(prefixes[name.value.0] + name.value.1));
        }
      } else {
        r := None;
      }
    }

    method ParsePredicate(prefixes: Prefixes) returns (r: Option<Term>)
      requires Valid()
      modifies this`pos
      ensures Did(r, ReadVerb(input, old(pos), prefixes))
    {
      SkipWs();
      if TypeKeyword(input, pos) {
        var _ := Bump();
        r := Some(Uri(RDF_TYPE));
      } else {
        r := ParseTerm(prefixes);
      }
    }

    /** An object and the comma behind it; `more` if there is one. */
    method ParseNextObject(prefixes: Prefixes) returns (o: Option<Term>, more: bool)
      requires Valid()
      modifies this`pos
      ensures Valid() && (more ==> old(pos) < pos && o.Some?)
      ensures ObjectRound(input, old(pos), Terms(prefixes), o, more, pos)
    {
      o := ParseTerm(prefixes);
      ghost var p := pos;
      more := false;
      if o.None? {
        return;
      }
      SkipWs();
      if Next(',') {
        var _ := Bump();
        SkipWs();
        more := true;
      }
      ObjectRoundDone(input, old(pos), Terms(prefixes), o.value, p, more, pos);
    }

    /** Objects separated by commas; each is a triple more. */
    method ParseObjects(prefixes: Prefixes, subject: Term, pred: Term, out: seq<Triple>)
      returns (r: Option<seq<Triple>>, ghost objects: seq<Term>)
      requires Valid()
      modifies this`pos
      ensures Did(if r.None? then None else Some(objects), ReadObjects(input, old(pos), Terms(prefixes)))
      ensures r.Some? ==> r.value == out + TriplesOf(subject, PairsOf(pred, objects))
    {
      objects := [];
      ghost var whole := ReadObjects(input, pos, Terms(prefixes));
      PrependedNothing(whole);
      assert out + [] == out;
      r := Some(out);
      var more := true;
      while more
        invariant Valid() && (more ==> r.Some?)
        invariant r.Some? ==> r.value == out + TriplesOf(subject, PairsOf(pred, objects))
        invariant whole == if r.None? then None
                           else if more then Prepended(objects, ReadObjects(input, pos, Terms(prefixes)))
                           else Some((objects, pos))
        decreases if more then |input| - pos + 1 else 0
      {
        var o;
        o, more := ParseNextObject(prefixes);
        if o.None? {
          r := None;
        } else {
          OneMore(subject, pred, objects, o.value);
          PrependedTwice(objects, [o.value], ReadObjects(input, pos, Terms(prefixes)));
          r := Some(r.value + [Triple(subject, pred, o.value)]);
          objects := objects + [o.value];
        }
      }
    }

    /** A predicate with its objects. */
    method ParsePairs(prefixes: Prefixes, subject: Term, out: seq<Triple>)
      returns (r: Option<seq<Triple>>, ghost pairs: Properties)
      requires Valid()
      modifies this`pos
      ensures Did(if r.None? then None else Some(pairs), ReadPairs(input, old(pos), Verbs(prefixes), Terms(prefixes)))
      ensures r.Some? ==> r.value == out + TriplesOf(subject, pairs)
    {
      pairs := [];
      var pred := ParsePredicate(prefixes);
      if pred.None? {
        return None, pairs;
      }
      SkipWs();
      ghost var objects;
      r, objects := ParseObjects(prefixes, subject, pred.value, out);
      pairs := PairsOf(pred.value, objects);
    }

    /** The mark behind a predicate and its objects: a semicolon asks for another, a dot ends the block. */
    method ParseMark() returns (mark: Option<char>)
      requires Valid()
      modifies this`pos
      ensures Valid() && old(pos) <= pos
      ensures mark == (if Is(input, old(pos), ';') then Some(';') else if Is(input, old(pos), '.') then Some('.') else None)
      ensures mark == Some(';') ==> pos == SkipSpace(input, old(pos) + 1)
      ensures mark == Some('.') ==> pos == old(pos) + 1
    {
      if Next(';') {
        mark := Bump();
        SkipWs();
      } else if Next('.') {
        mark := Bump();
      } else {
        mark := None;
      }
    }

    /** One round of the loop over the predicates; `more` if another has to follow. */
    method ParseProperty(prefixes: Prefixes, subject: Term, out: seq<Triple>)
      returns (r: Option<seq<Triple>>, more: bool, ghost pairs: Properties)
      requires Valid()
      modifies this`pos
      ensures Valid() && (more ==> old(pos) < pos && r.Some?) && (r.Some? ==> r.value == out + TriplesOf(subject, pairs))
      ensures Round(input, old(pos), Verbs(prefixes), Terms(prefixes), if r.None? then None else Some(pairs), more, pos)
    {
      more, pairs := false, [];
      SkipWs();
      if Next('.') {
        var _ := Bump();
        assert out + [] == out;
        return Some(out), false, pairs;
      }
      r, pairs := ParsePairs(prefixes, subject, out);
      if r.None? {
        NoRound(input, old(pos), Verbs(prefixes), Terms(prefixes), pos);
        return;
      }
      ghost var e := pos;
      var mark := ParseMark();
      more := mark == Some(';');
      if mark.None? {
        r := None;
      }
      RoundDone(input, old(pos), Verbs(prefixes), Terms(prefixes), pairs, e, mark, pos);
    }

    /** Predicates with their objects, up to the dot that ends the block. */
    method ParsePredicates(prefixes: Prefixes, subject: Term, out: seq<Triple>)
      returns (r: Option<seq<Triple>>, ghost properties: Properties)
      requires Valid()
      modifies this`pos
      ensures Did(if r.None? then None else Some(properties), ReadProperties(input, old(pos), Verbs(prefixes), Terms(prefixes)))
      ensures r.Some? ==> r.value == out + TriplesOf(subject, properties)
    {
      properties := [];
      ghost var whole := ReadProperties(input, pos, Verbs(prefixes), Terms(prefixes));
      PrependedNothing(whole);
      assert out + [] == out;
      r := Some(out);
      var more := true;
      while more
        invariant Valid() && (more ==> r.Some?) && (r.Some? ==> r.value == out + TriplesOf(subject, properties))
        invariant whole == if r.None? then None
                           else if more then Prepended(properties, ReadProperties(input, pos, Verbs(prefixes), Terms(prefixes)))
                           else Some((properties, pos))
        decreases if more then |input| - pos + 1 else 0
      {
        ghost var pairs, before := [], properties;
        r, more, pairs := ParseProperty(prefixes, subject, r.value);
        TriplesSplit(out, subject, before, pairs);
        PrependedTwice(before, pairs, ReadProperties(input, pos, Verbs(prefixes), Terms(prefixes)));
        properties := before + pairs;
      }
    }

    method ParseTriplesBlock(prefixes: Prefixes, out: seq<Triple>) returns (r: Option<seq<Triple>>)
      requires Valid()
      modifies this`pos
      ensures match ReadBlock(input, old(pos), Verbs(prefixes), Terms(prefixes))
              case None => r.None?
              case Some((triples, p)) => r == Some(out + triples) && pos == p
      ensures Valid()
    {
      SkipWs();
      var subject := ParseTerm(prefixes);
      if subject.None? {
        return None;
      }
      SkipWs();
      ghost var properties;
      r, properties := ParsePredicates(prefixes, subject.value, out);
    }

    predicate PeekKeyword(word: string)
      reads this
    {
      Keyword(input, pos, word)
    }

    /** The IRI of a declaration with its optional dot. */
    method ParseTarget() returns (r: Option<string>)
      requires Valid()
      modifies this`pos
      ensures Did(r, ReadTarget(input, old(pos)))
    {
      SkipWs();
      r := ParseIri();
      if r.None? {
        return;
      }
      SkipWs();
      if Next('.') {
        var _ := Bump();
      }
    }

    /** The name of a prefix: anything up to a colon. */
    method ParsePrefixName() returns (name: string)
      requires Valid()
      modifies this`pos
      ensures Valid() && pos == ColonAt(input, old(pos)) && name == input[old(pos)..pos]
    {
      name := "";
      while pos < |input| && input[pos] != ':'
        invariant old(pos) <= pos && Valid() && ColonAt(input, pos) == ColonAt(input, old(pos))
        invariant name == input[old(pos)..pos]
      {
        name := name + [input[pos]];
        var _ := Bump();
      }
    }

    /** A prefix declaration; its keyword has been seen. */
    method ParsePrefixDecl(prefixes: Prefixes) returns (r: Option<Prefixes>)
      requires Valid() && PrefixWord(input, pos) > 0
      modifies this`pos
      ensures Valid()
      ensures match ReadDeclaration(input, old(pos) + PrefixWord(input, old(pos)))
              case None => r.None?
              case Some(((name, iri), p)) => r == Some(prefixes[name := iri]) && pos == p
    {
      pos := pos + if PeekKeyword("@prefix") then 7 else 6;
      SkipWs();
      var name := ParsePrefixName();
      var ok := ExpectChar(':');
      if !ok {
        return None;
      }
      var iri := ParseTarget();
      r := if iri.None? then None else Some(prefixes[name := iri.value]);
    }

    /** A base declaration is read and forgotten. */
    method ParseBaseDecl() returns (ok: bool)
      requires Valid() && BaseWord(input, pos) > 0
      modifies this`pos
      ensures Valid()
      ensures match ReadTarget(input, old(pos) + BaseWord(input, old(pos))) case None => !ok case Some((_, p)) => ok && pos == p
    {
      pos := pos + if PeekKeyword("@base") then 5 else 4;
      var iri := ParseTarget();
      ok := iri.Some?;
    }
  }

  // ---------------------------------------------------------------- parsing documents

  method ParseNTriplesLine(line: string) returns (r: Option<Triple>)
    ensures r == ReadLine(line)
  {
    var p := new Parser(line);
    var subject := p.ParseSubject();
    if subject.None? {
      return None;
    }
    var pred := p.ParseIriOrA();
    if pred.None? {
      return None;
    }
    var object' := p.ParseObject();
    if object'.None? {
      return None;
    }
    p.SkipWs();
    var ok := p.ExpectChar('.');
    r := if ok then Some(Triple(subject.value, pred.value, object'.value)) else None;
  }

  /** One triple for each line that is neither blank nor a comment, or the number of a bad line. */
  method ParseNTriples(input: string) returns (r: Result<seq<Triple>, nat>)
    ensures r == ReadNTriples(input)
  {
    var out: seq<Triple> := [];
    var lines := Lines(input);
    var i := 0;
    ghost var whole := ReadLines(lines, 1, ReadRaw);
    ThenStarts(whole);
    while i < |lines|
      invariant 0 <= i <= |lines| && Then(Ok(out), ReadLines(lines[i..], i + 1, ReadRaw)) == whole
    {
      assert lines[i..][0] == lines[i] && lines[i..][1..] == lines[i + 1..];
      ghost var rest := ReadLines(lines[i + 1..], i + 2, ReadRaw);
      ThenAssociative(Ok(out), ReadRaw(lines[i], i + 1), rest);
      ThenStarts(Ok(out));
      var line := Trim(lines[i]);
      if line != "" && line[0] != '#' {
        var t := ParseNTriplesLine(line);
        if t.None? {
          return Err(i + 1);
        }
        out := out + [t.value];
      }
      i := i + 1;
    }
    ThenStarts(Ok(out));
    r := Ok(out);
  }

  function Joined(out: seq<Triple>, r: Option<seq<Triple>>): Option<seq<Triple>> {
    if r.None? then None else Some(out + r.value)
  }

  lemma JoinedTwice(a: seq<Triple>, b: seq<Triple>, r: Option<seq<Triple>>)
    ensures Joined(a, Joined(b, r)) == Joined(a + b, r) && Joined([], r) == r
  {
    if r.Some? {
      assert a + (b + r.value) == (a + b) + r.value;
      assert [] + r.value == r.value;
    }
  }

  method ParseTurtle(input: string) returns (r: Option<seq<Triple>>)
    ensures r == ReadTurtle(input)
  {
    var prefixes: Prefixes := map[];
    var out: seq<Triple> := [];
    var p := new Parser(input);
    ghost var whole := ReadTurtle(input);
    JoinedTwice([], [], whole);
    while true
      invariant fresh(p) && p.Valid() && p.input == input
      invariant Joined(out, ReadStatements(input, p.pos, prefixes)) == whole
      decreases |input| - p.pos
    {
      p.SkipWsAndComments();
      if p.pos >= |input| {
        assert out + [] == out;
        return Some(out);
      }
      var ok;
      ok, prefixes, out := ParseStatement(p, prefixes, out);
      if !ok {
        return None;
      }
    }
  }

  /** A declaration or a block of triples: what it does to the prefixes and the triples. */
  method ParseStatement(p: Parser, prefixes: Prefixes, out: seq<Triple>)
    returns (ok: bool, known: Prefixes, triples: seq<Triple>)
    requires p.Valid() && p.pos < |p.input|
    modifies p`pos
    ensures p.Valid() && (ok ==> old(p.pos) < p.pos)
    ensures Joined(out, ReadFrom(p.input, old(p.pos), prefixes)) ==
            if ok then Joined(triples, ReadStatements(p.input, p.pos, known)) else None
  {
    ok, known, triples := false, prefixes, out;
    if p.PeekKeyword("PREFIX") || p.PeekKeyword("@prefix") {
      var declared := p.ParsePrefixDecl(prefixes);
      if declared.Some? {
        ok, known := true, declared.value;
      }
    } else if p.PeekKeyword("BASE") || p.PeekKeyword("@base") {
      ok := p.ParseBaseDecl();
    } else {
      ghost var block := ReadBlock(p.input, p.pos, Verbs(prefixes), Terms(prefixes));
      var more := p.ParseTriplesBlock(prefixes, out);
      if more.Some? {
        JoinedTwice(out, block.value.0, ReadStatements(p.input, p.pos, prefixes));
        ok, triples := true, more.value;
      }
    }
  }

  // ---------------------------------------------------------------- printing documents

  method EscapeLiteral(text: string) returns (out: string)
    ensures out == Escape(text)
  {
    out := "";
    for i := 0 to |text|
      invariant out + Escape(text[i..]) == Escape(text)
    {
      assert text[i..][0] == text[i] && text[i..][1..] == text[i + 1..];
      out := out + EscapeChar(text[i]);
    }
  }

  method SerializeNTriples(ts: seq<Triple>) returns (out: string)
    ensures out == NTriples(ts)
  {
    out := "";
    for i := 0 to |ts|
      invariant out + NTriples(ts[i..]) == NTriples(ts)
    {
      var t := ts[i];
      assert ts[i..][0] == t && ts[i..][1..] == ts[i + 1..];
      ghost var before := out;
      out := out + Format(t.s);
      out := out + " ";
      out := out + Format(t.p);
      out := out + " ";
      out := out + Format(t.o);
      out := out + " .\n";
      ChunkWritten(before, t, out);
    }
  }

  lemma ChunkWritten(before: string, t: Triple, out: string)
    requires out == before + Format(t.s) + " " + Format(t.p) + " " + Format(t.o) + " .\n"
    ensures out == before + Chunk(t)
  {
  }

  /** The insertion-ordered map of the serializer. */
  class VecMap<K(==), V> {
    var keys: seq<K>
    var values: seq<seq<V>>

    predicate Valid()
      reads this
    {
      |keys| == |values|
    }

    ghost function Contents(): (m: Groups<K, V>)
      requires Valid()
      reads this
      ensures |m| == |keys|
    {
      seq(|keys|, i requires 0 <= i < |keys| && |keys| == |values| reads this => (keys[i], values[i]))
    }

    constructor ()
      ensures Valid() && Contents() == []
    {
      keys := [];
      values := [];
    }

    method Push(k: K, v: V)
      requires Valid()
      modifies this
      ensures Valid() && Contents() == Pushed(old(Contents()), k, v)
    {
      ghost var before := Contents();
      var i := 0;
      while i < |keys| && keys[i] != k
        invariant 0 <= i <= |keys| && forall j :: 0 <= j < i ==> before[j].0 != k
      {
        i := i + 1;
      }
      PushedAt(before, k, v, i);
      if i < |keys| {
        values := values[i := values[i] + [v]];
      } else {
        keys := keys + [k];
        values := values + [[v]];
      }
    }

    /** The keys with their values, in order. */
    method IntoIter() returns (m: Groups<K, V>)
      requires Valid()
      ensures m == Contents()
    {
      m := [];
      for i := 0 to |keys|
        invariant m == Contents()[..i]
      {
        m := m + [(keys[i], values[i])];
      }
    }
  }

  /** Where a push goes: to the first entry with the key, or to the end. */
  lemma {:induction false} PushedAt<K, V>(m: Groups<K, V>, k: K, v: V, i: nat)
    requires i <= |m| && (forall j :: 0 <= j < i ==> m[j].0 != k) && (i < |m| ==> m[i].0 == k)
    ensures Pushed(m, k, v) == if i < |m| then m[i := (k, m[i].1 + [v])] else m + [(k, [v])]
  {
    if i > 0 {
      PushedAt(m[1..], k, v, i - 1);
    }
  }

  /** What has been written and what is left make up the whole text. */
  ghost predicate Leads(text: string, left: string, whole: string) { text + left == whole }

  lemma LeadsOn(before: string, mark: string, piece: string, left: string, text: string, whole: string)
    requires Leads(before, mark + (piece + left), whole) && text == before + mark + piece
    ensures Leads(text, left, whole)
  {
  }

  lemma LeadsTo(text: string, whole: string)
    requires Leads(text, "", whole)
    ensures text == whole
  {
    assert text + "" == text;
  }

  function ObjectsLeft(objects: seq<Term>, i: nat): string
    requires i <= |objects| && objects != []
  {
    if i == 0 then ObjectsText(objects, Format)
    else if i == |objects| then ""
    else " , " + ObjectsText(objects[i..], Format)
  }

  lemma ObjectWritten(objects: seq<Term>, i: nat)
    requires i < |objects|
    ensures ObjectsLeft(objects, i) == (if i == 0 then "" else " , ") + (Format(objects[i]) + ObjectsLeft(objects, i + 1))
  {
    var rest := objects[i..];
    assert rest[0] == objects[i] && rest[1..] == objects[i + 1..];
    assert objects[0..] == objects;
  }

  method WriteObjects(out: string, objects: seq<Term>) returns (text: string)
    requires objects != []
    ensures text == out + ObjectsText(objects, Format)
  {
    text := out;
    for i := 0 to |objects|
      invariant Leads(text, ObjectsLeft(objects, i), out + ObjectsText(objects, Format))
    {
      ghost var before := text;
      ObjectWritten(objects, i);
      if i > 0 {
        text := text + " , ";
      }
      text := text + Format(objects[i]);
      assert before + "" == before;
      LeadsOn(before, if i == 0 then "" else " , ", Format(objects[i]), ObjectsLeft(objects, i + 1), text,
              out + ObjectsText(objects, Format));
    }
    LeadsTo(text, out + ObjectsText(objects, Format));
  }

  function PropertiesLeft(m: Groups<Term, Term>, i: nat): string
    requires i <= |m| && AllFilled(m)
  {
    if i == |m| then "" else (if i == 0 then " " else " ;\n  ") + PropertiesText(m[i..], Format)
  }

  lemma PropertyWritten(m: Groups<Term, Term>, i: nat)
    requires i < |m| && AllFilled(m)
    ensures PropertiesLeft(m, i) ==
            (if i == 0 then " " else " ;\n  ") + ((Format(m[i].0) + " " + ObjectsText(m[i].1, Format)) + PropertiesLeft(m, i + 1))
  {
    var rest := m[i..];
    assert rest[0] == m[i] && rest[1..] == m[i + 1..];
  }

  method WriteProperty(out: string, g: (Term, seq<Term>)) returns (text: string)
    requires g.1 != []
    ensures text == out + (Format(g.0) + " " + ObjectsText(g.1, Format))
  {
    text := out + Format(g.0);
    text := text + " ";
    text := WriteObjects(text, g.1);
    Associate(out, Format(g.0), " ", ObjectsText(g.1, Format));
  }

  lemma PropertyLeads(before: string, m: Groups<Term, Term>, i: nat, mark: string, text: string, whole: string)
    requires i < |m| && AllFilled(m) && Leads(before, PropertiesLeft(m, i), whole)
    requires mark == (if i == 0 then " " else " ;\n  ")
    requires text == before + mark + (Format(m[i].0) + " " + ObjectsText(m[i].1, Format))
    ensures Leads(text, PropertiesLeft(m, i + 1), whole)
  {
    PropertyWritten(m, i);
    LeadsOn(before, mark, Format(m[i].0) + " " + ObjectsText(m[i].1, Format), PropertiesLeft(m, i + 1), text, whole);
  }

  method WriteProperties(out: string, m: Groups<Term, Term>, ghost whole: string) returns (text: string)
    requires AllFilled(m) && Leads(out, PropertiesLeft(m, 0), whole)
    ensures text == whole
  {
    text := out;
    for i := 0 to |m|
      invariant Leads(text, PropertiesLeft(m, i), whole)
    {
      ghost var before := text;
      var mark := if i == 0 then " " else " ;\n  ";
      text := text + mark;
      text := WriteProperty(text, m[i]);
      PropertyLeads(before, m, i, mark, text, whole);
    }
    LeadsTo(text, whole);
  }

  lemma Associate(a: string, b: string, c: string, d: string)
    ensures a + b + c + d == a + (b + c + d)
  {
  }

  /** Groups the properties of a subject by predicate, as the serializer does for each block. */
  method GroupProperties(properties: Properties) returns (m: Groups<Term, Term>)
    ensures m == Grouped(properties)
  {
    var byPred := new VecMap<Term, Term>();
    for i := 0 to |properties|
      invariant fresh(byPred) && byPred.Valid() && byPred.Contents() == Grouped(properties[..i])
    {
      byPred.Push(properties[i].0, properties[i].1);
      assert properties[..i + 1][..i] == properties[..i];
    }
    assert properties[..|properties|] == properties;
    m := byPred.IntoIter();
  }

  method WriteBlock(out: string, subject: Term, properties: Properties) returns (text: string)
    requires properties != []
    ensures text == out + BlockText(subject, properties, Format)
  {
    GroupedFilled(properties);
    text := out + Format(subject);
    var byPred := GroupProperties(properties);
    ghost var shown := PropertiesText(byPred, Format);
    assert byPred[0..] == byPred;
    text := WriteProperties(text, byPred, text + (" " + shown));
    text := text + " .\n";
    BlockWritten(out, Format(subject), shown);
  }

  lemma BlockWritten(out: string, subject: string, properties: string)
    ensures out + subject + (" " + properties) + " .\n" == out + (subject + " " + properties + " .\n")
  {
  }

  method GroupSubjects(ts: seq<Triple>) returns (m: Groups<Term, (Term, Term)>)
    ensures m == Grouped(BySubject(ts))
  {
    var bySubject := new VecMap<Term, (Term, Term)>();
    for i := 0 to |ts|
      invariant fresh(bySubject) && bySubject.Valid() && bySubject.Contents() == Grouped(BySubject(ts[..i]))
    {
      bySubject.Push(ts[i].s, (ts[i].p, ts[i].o));
      OneSubject(ts, i);
    }
    assert ts[..|ts|] == ts;
    m := bySubject.IntoIter();
  }

  ghost predicate BlocksFull(m: Groups<Term, (Term, Term)>) { forall i :: 0 <= i < |m| ==> m[i].1 != [] }

  lemma BlockLeads(before: string, m: Groups<Term, (Term, Term)>, i: nat, text: string, whole: string)
    requires i < |m| && BlocksFull(m) && Leads(before, BlocksText(m[i..], Format), whole)
    requires text == before + BlockText(m[i].0, m[i].1, Format)
    ensures Leads(text, BlocksText(m[i + 1..], Format), whole)
  {
    assert m[i..][0] == m[i] && m[i..][1..] == m[i + 1..];
    assert before + "" == before;
    var block, left := BlockText(m[i].0, m[i].1, Format), BlocksText(m[i + 1..], Format);
    assert "" + (block + left) == block + left;
    LeadsOn(before, "", block, left, text, whole);
  }

  method SerializeTurtle(ts: seq<Triple>) returns (out: string)
    ensures out == TurtleText(ts)
  {
    GroupedFilled(BySubject(ts));
    var m := GroupSubjects(ts);
    out := "";
    assert m[0..] == m;
    for i := 0 to |m|
      invariant Leads(out, BlocksText(m[i..], Format), BlocksText(m, Format))
    {
      ghost var before := out;
      out := WriteBlock(out, m[i].0, m[i].1);
      BlockLeads(before, m, i, out, BlocksText(m, Format));
    }
    LeadsTo(out, BlocksText(m, Format));
  }

  lemma OneSubject(ts: seq<Triple>, i: nat)
    requires i < |ts|
    ensures Grouped(BySubject(ts[..i + 1])) == Pushed(Grouped(BySubject(ts[..i])), ts[i].s, (ts[i].p, ts[i].o))
  {
    var next := ts[..i + 1];
    assert next[..i] == ts[..i] && next[i] == ts[i];
    var pairs := BySubject(next);
    assert pairs[..|pairs| - 1] == BySubject(ts[..i]);
  }

  // ---------------------------------------------------------------- there and back

  method NTriplesThereAndBack(ts: seq<Triple>) returns (r: Result<seq<Triple>, nat>)
    ensures r == Ok(ts) <==> forall t :: t in ts ==> OneLine(t)
  {
    var text := SerializeNTriples(ts);
    r := ParseNTriples(text);
    NTriplesRoundTrip(ts);
  }

  method TurtleThereAndBack(ts: seq<Triple>) returns (r: Option<seq<Triple>>)
    requires forall t :: t in ts ==> Clean(t.s) && Clean(t.p) && Clean(t.o)
    ensures r.Some? && multiset(r.value) == multiset(ts)
  {
    var text := SerializeTurtle(ts);
    r := ParseTurtle(text);
    TurtleRoundTrip(ts);
  }

  // ---------------------------------------------------------------- helper lemmas

  /** What a round of the loop over the objects makes of the text from `pos` on. */
  ghost predicate ObjectRound(s: string, pos: nat, term: Forward, o: Option<Term>, more: bool, end: nat) {
    ReadObjects(s, pos, term) ==
    match o
    case None => None
    case Some(t) => if more then Prepended([t], ReadObjects(s, end, term)) else Some(([t], end))
  }

  lemma ObjectRoundDone(s: string, pos: nat, term: Forward, o: Term, p: nat, more: bool, end: nat)
    requires term(s, pos) == Some((o, p)) && more == Is(s, SkipSpace(s, p), ',')
    requires end == if more then SkipSpace(s, SkipSpace(s, p) + 1) else SkipSpace(s, p)
    ensures ObjectRound(s, pos, term, Some(o), more, end)
  {
    assert ReadObjects(s, pos, term) == ObjectsAfter(s, o, SkipSpace(s, p), term);
  }

  /** What a round of the loop over the predicates makes of the text from `pos` on. */
  ghost predicate Round(s: string, pos: nat, verb: Forward, term: Forward, r: Option<Properties>, more: bool, end: nat) {
    ReadProperties(s, pos, verb, term) ==
    match r
    case None => None
    case Some(pairs) => if more then Prepended(pairs, ReadProperties(s, end, verb, term)) else Some((pairs, end))
  }

  lemma NoRound(s: string, pos: nat, verb: Forward, term: Forward, end: nat)
    requires var start := SkipSpace(s, pos); !Is(s, start, '.') && ReadPairs(s, start, verb, term) == None
    ensures Round(s, pos, verb, term, None, false, end)
  {
    assert ReadProperty(s, SkipSpace(s, pos), verb, term) == None;
  }

  lemma RoundDone(s: string, pos: nat, verb: Forward, term: Forward, pairs: Properties, e: nat, mark: Option<char>, end: nat)
    requires var start := SkipSpace(s, pos); !Is(s, start, '.') && ReadPairs(s, start, verb, term) == Some((pairs, e))
    requires mark == if Is(s, e, ';') then Some(';') else if Is(s, e, '.') then Some('.') else None
    requires mark == Some(';') ==> end == SkipSpace(s, e + 1)
    requires mark == Some('.') ==> end == e + 1
    ensures Round(s, pos, verb, term, if mark.None? then None else Some(pairs), mark == Some(';'), end)
  {
    assert ReadProperty(s, SkipSpace(s, pos), verb, term) == PropertiesAfter(s, pairs, e, verb, term);
  }

  lemma SkipTwice(s: string, pos: nat)
    requires pos <= |s| && SkipSpace(s, pos) == pos
    ensures SkipSpace(s, SkipSpace(s, pos)) == pos
  {
  }

  lemma PrependedNothing<T>(r: Reading<seq<T>>)
    ensures Prepended([], r) == r
  {
    if r.Some? {
      assert [] + r.value.0 == r.value.0;
    }
  }

  lemma PrependedTwice<T>(a: seq<T>, b: seq<T>, r: Reading<seq<T>>)
    ensures Prepended(a, Prepended(b, r)) == Prepended(a + b, r)
  {
    if r.Some? {
      assert a + (b + r.value.0) == (a + b) + r.value.0;
    }
  }

  lemma OneMore(subject: Term, pred: Term, objects: seq<Term>, o: Term)
    ensures TriplesOf(subject, PairsOf(pred, objects + [o])) == TriplesOf(subject, PairsOf(pred, objects)) + [Triple(subject, pred, o)]
  {
    EntriesAppend(pred, objects, o, PairOf);
    EntriesAppend(subject, PairsOf(pred, objects), PairOf(pred, o), TripleOf);
  }

  lemma TriplesSplit(out: seq<Triple>, subject: Term, a: Properties, b: Properties)
    ensures out + TriplesOf(subject, a) + TriplesOf(subject, b) == out + TriplesOf(subject, a + b)
  {
    EntriesSplit(subject, a, b, TripleOf);
  }
}
