/** Printed terms and lines are read back as what they are, exactly when they are well formed. */
module RdfTextProofs {
  import opened Wrappers
  import opened RdfStore
  import opened RdfText

  // ---------------------------------------------------------------- well-formed terms

  /** A backslash takes the next character with it and needs one; no other `>` occurs. */
  predicate CleanIri(iri: string) {
    iri == "" ||
    if iri[0] == '\\' then |iri| >= 2 && CleanIri(iri[2..]) else iri[0] != '>' && CleanIri(iri[1..])
  }

  predicate CleanLabel(name: string) { forall c :: c in name ==> !LabelStop(c) }

  predicate CleanTag(annotation: Option<string>) {
    match annotation
    case None => true
    case Some(tag) =>
      if tag != "" && tag[0] == '@' then forall c :: c in tag[1..] ==> TagChar(c) else CleanIri(tag)
  }

  predicate Clean(t: Term) {
    match t
    case Uri(iri) => CleanIri(iri)
    case Blank(name) => CleanLabel(name)
    case Literal(_, annotation) => CleanTag(annotation)
  }

  // ---------------------------------------------------------------- pieces of a text

  ghost predicate Here(s: string, pos: nat, piece: string) {
    pos + |piece| <= |s| && forall i :: 0 <= i < |piece| ==> s[pos + i] == piece[i]
  }

  lemma HereSplit(s: string, pos: nat, a: string, b: string)
    requires Here(s, pos, a + b)
    ensures Here(s, pos, a) && Here(s, pos + |a|, b)
  {
    forall i | 0 <= i < |a| ensures s[pos + i] == a[i] {
      assert (a + b)[i] == a[i];
    }
    forall i | 0 <= i < |b| ensures s[pos + |a| + i] == b[i] {
      assert s[pos + (|a| + i)] == (a + b)[|a| + i] == b[i];
    }
  }

  lemma HereThen(s: string, pos: nat, a: string, b: string, c: string)
    requires Here(s, pos, a + b + c)
    ensures Here(s, pos, a) && Here(s, pos + |a|, b + c)
  {
    assert a + b + c == a + (b + c);
    HereSplit(s, pos, a, b + c);
  }

  lemma HereFirst(s: string, pos: nat, piece: string)
    requires piece != "" && Here(s, pos, piece)
    ensures pos < |s| && s[pos] == piece[0]
  {
    assert s[pos + 0] == piece[0];
  }

  lemma HereWhole(s: string)
    ensures Here(s, 0, s)
  {
  }

  lemma HereSlice(s: string, pos: nat, piece: string)
    requires Here(s, pos, piece)
    ensures s[pos..pos + |piece|] == piece
  {
  }

  // ---------------------------------------------------------------- IRIs, labels and tags

  /** The scan for the end goes the same way in the printed IRI as in the text around it. */
  lemma {:induction false} IriEndHere(s: string, pos: nat, piece: string, k: nat)
    requires Here(s, pos, piece + ">") && k <= |piece|
    ensures IriEnd(piece + ">", k) <= |piece| ==> IriEnd(s, pos + k) == pos + IriEnd(piece + ">", k)
    ensures IriEnd(piece + ">", k) > |piece| ==> IriEnd(s, pos + k) > pos + |piece|
    decreases |piece| - k
  {
    var t := piece + ">";
    assert s[pos + k] == t[k];
    assert t[|piece|] == '>';
    if t[k] != '>' {
      if t[k] == '\\' {
        if k + 2 <= |piece| {
          assert k + 1 < |t|;
          IriEndHere(s, pos, piece, k + 2);
        }
      } else {
        IriEndHere(s, pos, piece, k + 1);
      }
    }
  }

  /** The scan over the printed IRI stops at its own end exactly if the characters are clean. */
  lemma {:induction false} CleanIriIsScan(iri: string, k: nat)
    requires k <= |iri|
    ensures CleanIri(iri[k..]) <==> IriEnd(iri + ">", k) == |iri|
    decreases |iri| - k
  {
    var t := iri + ">";
    if k < |iri| {
      assert t[k] == iri[k] == iri[k..][0];
      if iri[k] == '\\' {
        if k + 2 <= |iri| {
          assert iri[k..][2..] == iri[k + 2..];
          CleanIriIsScan(iri, k + 2);
        }
      } else {
        assert iri[k..][1..] == iri[k + 1..];
        CleanIriIsScan(iri, k + 1);
      }
    }
  }

  lemma IriReads(s: string, pos: nat, iri: string)
    requires Here(s, pos, "<" + iri + ">")
    ensures CleanIri(iri) ==> ReadIri(s, pos) == Some((iri, pos + |iri| + 2))
    ensures ReadIri(s, pos).Some? && ReadIri(s, pos).value.0 == iri ==> CleanIri(iri)
  {
    assert "<" + iri + ">" == "<" + (iri + ">");
    HereSplit(s, pos, "<", iri + ">");
    HereFirst(s, pos, "<");
    IriBodyReads(s, pos, iri);
  }

  lemma IriBodyReads(s: string, pos: nat, iri: string)
    requires pos < |s| && s[pos] == '<' && Here(s, pos + 1, iri + ">")
    ensures CleanIri(iri) ==> ReadIri(s, pos) == Some((iri, pos + |iri| + 2))
    ensures ReadIri(s, pos).Some? && ReadIri(s, pos).value.0 == iri ==> CleanIri(iri)
  {
    CleanIriIsScan(iri, 0);
    assert iri[0..] == iri;
    IriEndHere(s, pos + 1, iri, 0);
    HereSplit(s, pos + 1, iri, ">");
    HereSlice(s, pos + 1, iri);
  }

  /** A scan over characters that qualify stops at the first that does not. */
  lemma {:induction false} LabelEndHere(s: string, pos: nat, name: string)
    requires Here(s, pos, name + " ")
    ensures CleanLabel(name) ==> LabelEnd(s, pos) == pos + |name|
    ensures LabelEnd(s, pos) == pos + |name| ==> CleanLabel(name)
    decreases |name|
  {
    assert s[pos + 0] == (name + " ")[0];
    if name != "" && !LabelStop(name[0]) {
      assert name + " " == [name[0]] + (name[1..] + " ");
      HereSplit(s, pos, [name[0]], name[1..] + " ");
      LabelEndHere(s, pos + 1, name[1..]);
      assert forall c :: c in name <==> c == name[0] || c in name[1..];
    }
  }

  lemma {:induction false} TagEndHere(s: string, pos: nat, lang: string)
    requires Here(s, pos, lang + " ")
    ensures (forall c :: c in lang ==> TagChar(c)) <==> TagEnd(s, pos) == pos + |lang|
    decreases |lang|
  {
    assert s[pos + 0] == (lang + " ")[0];
    if lang != "" && TagChar(lang[0]) {
      assert lang + " " == [lang[0]] + (lang[1..] + " ");
      HereSplit(s, pos, [lang[0]], lang[1..] + " ");
      TagEndHere(s, pos + 1, lang[1..]);
      assert forall c :: c in lang <==> c == lang[0] || c in lang[1..];
    }
  }

  lemma BlankReads(s: string, pos: nat, name: string)
    requires Here(s, pos, "_:" + name + " ")
    ensures CleanLabel(name) ==> ReadBlank(s, pos) == Some((Blank(name), pos + 2 + |name|))
    ensures ReadBlank(s, pos).Some? && ReadBlank(s, pos).value.0 == Blank(name) ==> CleanLabel(name)
  {
    assert "_:" + name + " " == "_:" + (name + " ");
    HereSplit(s, pos, "_:", name + " ");
    assert s[pos + 0] == "_:"[0] && s[pos + 1] == "_:"[1];
    LabelEndHere(s, pos + 2, name);
    HereSplit(s, pos + 2, name, " ");
    HereSlice(s, pos + 2, name);
  }

  // ---------------------------------------------------------------- literals

  lemma CharReads(s: string, pos: nat, c: char)
    requires Here(s, pos, EscapeChar(c))
    ensures pos < |s| && s[pos] != '"' && ReadChar(s, pos) == Some(([c], pos + |EscapeChar(c)|))
  {
    var e := EscapeChar(c);
    assert s[pos + 0] == e[0];
    if |e| == 2 {
      assert s[pos + 1] == e[1];
    }
  }

  /** Every text survives escaping. */
  lemma {:induction false} CharsRead(s: string, pos: nat, text: string)
    requires Here(s, pos, Escape(text) + "\"")
    ensures ReadChars(s, pos, '"') == Some((text, pos + |Escape(text)| + 1))
    decreases |text|
  {
    if text == "" {
      HereFirst(s, pos, Escape(text) + "\"");
    } else {
      CharShown(s, pos, text, EscapeChar, "\"");
      CharReads(s, pos, text[0]);
      var p := pos + |EscapeChar(text[0])|;
      CharsRead(s, p, text[1..]);
      CharsStep(s, pos, p, text, p + |Escape(text[1..])| + 1);
    }
  }

  lemma CharShown(s: string, pos: nat, text: string, shown: char -> string, end: string)
    requires text != "" && Here(s, pos, Replaced(text, shown) + end)
    ensures Here(s, pos, shown(text[0])) && Here(s, pos + |shown(text[0])|, Replaced(text[1..], shown) + end)
  {
    HereThen(s, pos, shown(text[0]), Replaced(text[1..], shown), end);
  }

  lemma CharsStep(s: string, pos: nat, p: nat, text: string, q: nat)
    requires text != "" && pos < p <= |s| && s[pos] != '"'
    requires ReadChar(s, pos) == Some(([text[0]], p)) && ReadChars(s, p, '"') == Some((text[1..], q))
    ensures ReadChars(s, pos, '"') == Some((text, q))
  {
    assert text == [text[0]] + text[1..];
  }

  lemma LangReads(s: string, pos: nat, lang: string)
    requires Here(s, pos, "@" + lang + " ")
    ensures (forall c :: c in lang ==> TagChar(c)) ==> ReadTag(s, pos) == Some((Some("@" + lang), pos + 1 + |lang|))
    ensures ReadTag(s, pos).Some? && ReadTag(s, pos).value.0 == Some("@" + lang) ==> forall c :: c in lang ==> TagChar(c)
  {
    HereThen(s, pos, "@", lang, " ");
    HereFirst(s, pos, "@");
    TagEndHere(s, pos + 1, lang);
    HereSplit(s, pos + 1, lang, " ");
    HereSlice(s, pos + 1, lang);
    assert |("@" + lang)| == 1 + |lang|;
  }

  lemma DatatypeReads(s: string, pos: nat, tag: string)
    requires Here(s, pos, "^^" + ("<" + tag + ">"))
    ensures CleanIri(tag) ==> ReadTag(s, pos) == Some((Some(tag), pos + |tag| + 4))
    ensures ReadTag(s, pos).Some? && ReadTag(s, pos).value.0 == Some(tag) ==> CleanIri(tag)
  {
    MarkHere(s, pos, "<" + tag + ">");
    DatatypeBehind(s, pos, tag);
  }

  lemma DatatypeBehind(s: string, pos: nat, tag: string)
    requires pos + 2 <= |s| && s[pos] == '^' && s[pos + 1] == '^' && Here(s, pos + 2, "<" + tag + ">")
    ensures CleanIri(tag) ==> ReadTag(s, pos) == Some((Some(tag), pos + |tag| + 4))
    ensures ReadTag(s, pos).Some? && ReadTag(s, pos).value.0 == Some(tag) ==> CleanIri(tag)
  {
    IriReads(s, pos + 2, tag);
    MarkedDatatype(s, pos, tag);
  }

  lemma MarkHere(s: string, pos: nat, rest: string)
    requires Here(s, pos, "^^" + rest)
    ensures pos + 2 <= |s| && s[pos] == '^' && s[pos + 1] == '^' && Here(s, pos + 2, rest)
  {
    HereSplit(s, pos, "^^", rest);
    assert s[pos + 0] == "^^"[0] && s[pos + 1] == "^^"[1];
  }

  lemma MarkedDatatype(s: string, pos: nat, tag: string)
    requires pos + 2 <= |s| && s[pos] == '^' && s[pos + 1] == '^'
    requires CleanIri(tag) ==> ReadIri(s, pos + 2) == Some((tag, pos + 2 + |tag| + 2))
    requires ReadIri(s, pos + 2).Some? && ReadIri(s, pos + 2).value.0 == tag ==> CleanIri(tag)
    ensures CleanIri(tag) ==> ReadTag(s, pos) == Some((Some(tag), pos + |tag| + 4))
    ensures ReadTag(s, pos).Some? && ReadTag(s, pos).value.0 == Some(tag) ==> CleanIri(tag)
  {
  }

  /** A tag that is printed as `text` is read up to its end exactly if it is clean. */
  ghost predicate TagFits(r: Reading<Option<string>>, annotation: Option<string>, end: nat, clean: bool) {
    (clean ==> r == Some((annotation, end))) && (r.Some? && r.value.0 == annotation ==> clean)
  }

  lemma LangTagReads(s: string, pos: nat, tag: string, end: nat)
    requires tag != "" && tag[0] == '@' && Here(s, pos, tag + " ") && end == pos + |tag|
    ensures TagFits(ReadTag(s, pos), Some(tag), end, CleanTag(Some(tag)))
  {
    assert tag == "@" + tag[1..];
    LangReads(s, pos, tag[1..]);
  }

  lemma DatatypeTagReads(s: string, pos: nat, tag: string, text: string, end: nat)
    requires !(tag != "" && tag[0] == '@') && text == "^^" + ("<" + tag + ">")
    requires Here(s, pos, text + " ") && end == pos + |text|
    ensures TagFits(ReadTag(s, pos), Some(tag), end, CleanTag(Some(tag)))
  {
    HereSplit(s, pos, text, " ");
    DatatypeReads(s, pos, tag);
  }

  lemma TagReads(s: string, pos: nat, annotation: Option<string>)
    requires Here(s, pos, FormatTag(annotation) + " ")
    ensures CleanTag(annotation) ==> ReadTag(s, pos) == Some((annotation, pos + |FormatTag(annotation)|))
    ensures ReadTag(s, pos).Some? && ReadTag(s, pos).value.0 == annotation ==> CleanTag(annotation)
  {
    var text := FormatTag(annotation);
    var end := pos + |text|;
    if annotation.None? {
      HereFirst(s, pos, text + " ");
    } else {
      var tag := annotation.value;
      if tag != "" && tag[0] == '@' {
        LangTagReads(s, pos, tag, end);
      } else {
        assert text == "^^" + ("<" + tag + ">");
        DatatypeTagReads(s, pos, tag, text, end);
      }
    }
  }

  lemma LiteralShown(s: string, pos: nat, t: Term)
    requires t.Literal? && Here(s, pos, Format(t) + " ")
    ensures pos < |s| && s[pos] == '"' && Here(s, pos + 1, Escape(t.text) + "\"")
    ensures |Format(t)| == 2 + |Escape(t.text)| + |FormatTag(t.annotation)|
    ensures Here(s, pos + 2 + |Escape(t.text)|, FormatTag(t.annotation) + " ")
  {
    var chars, tag := Escape(t.text) + "\"", FormatTag(t.annotation) + " ";
    assert Format(t) + " " == "\"" + (chars + tag);
    HereSplit(s, pos, "\"", chars + tag);
    HereFirst(s, pos, "\"");
    HereSplit(s, pos + 1, chars, tag);
  }

  lemma LiteralReads(s: string, pos: nat, t: Term)
    requires t.Literal? && Here(s, pos, Format(t) + " ")
    ensures pos < |s| && s[pos] == '"' && ReadsBack(ReadLiteral(s, pos), pos + |Format(t)|, t, Clean(t))
  {
    LiteralShown(s, pos, t);
    CharsRead(s, pos + 1, t.text);
    var p := pos + 2 + |Escape(t.text)|;
    TagReads(s, p, t.annotation);
    LiteralFrom(s, pos, t, p, pos + |Format(t)|, CleanTag(t.annotation));
  }

  lemma LiteralFrom(s: string, pos: nat, t: Term, p: nat, end: nat, fits: bool)
    requires t.Literal? && pos < |s| && s[pos] == '"' && p <= |s| && ReadChars(s, pos + 1, '"') == Some((t.text, p))
    requires fits ==> ReadTag(s, p) == Some((t.annotation, end))
    requires ReadTag(s, p).Some? && ReadTag(s, p).value.0 == t.annotation ==> fits
    ensures ReadsBack(ReadLiteral(s, pos), end, t, fits)
  {
  }

  // ---------------------------------------------------------------- terms

  /** A reading of the printed form of `t`: it yields `t` and stops at `end` if `t` fits, and never
      yields `t` otherwise. */
  ghost predicate ReadsBack(r: Reading<Term>, end: nat, t: Term, fits: bool) {
    && (fits ==> r == Some((t, end)))
    && (r.Some? && r.value.0 == t ==> fits)
  }

  predicate IsResource(t: Term) { !t.Literal? }

  lemma FirstOf(t: Term)
    ensures |Format(t)| >= 2 && Format(t)[0] == match t case Uri(_) => '<' case Blank(_) => '_' case Literal(_, _) => '"'
  {
  }

  lemma SubjectReads(s: string, pos: nat, t: Term)
    requires Here(s, pos, Format(t) + " ")
    ensures ReadsBack(ReadSubject(s, pos), pos + |Format(t)|, t, Clean(t) && IsResource(t))
  {
    FirstOf(t);
    assert s[pos + 0] == (Format(t) + " ")[0] == Format(t)[0];
    match t
    case Uri(iri) =>
      HereSplit(s, pos, Format(t), " ");
      IriReads(s, pos, iri);
    case Blank(name) => BlankReads(s, pos, name);
    case Literal(_, _) =>
  }

  lemma PredicateReads(s: string, pos: nat, t: Term)
    requires Here(s, pos, Format(t) + " ")
    ensures ReadsBack(ReadPredicate(s, pos), pos + |Format(t)|, t, Clean(t) && t.Uri?)
  {
    FirstOf(t);
    assert s[pos + 0] == (Format(t) + " ")[0] == Format(t)[0];
    if t.Uri? {
      HereSplit(s, pos, Format(t), " ");
      IriReads(s, pos, t.iri);
    }
  }

  lemma ObjectReads(s: string, pos: nat, t: Term)
    requires Here(s, pos, Format(t) + " ")
    ensures ReadsBack(ReadObject(s, pos), pos + |Format(t)|, t, Clean(t))
  {
    if t.Literal? {
      LiteralReads(s, pos, t);
    } else {
      FirstOf(t);
      HereSplit(s, pos, Format(t), " ");
      HereFirst(s, pos, Format(t));
      SubjectReads(s, pos, t);
    }
  }

  // ---------------------------------------------------------------- lines

  /** What an N-Triples line can say. */
  predicate CleanTriple(t: Triple) { Clean(t.s) && IsResource(t.s) && Clean(t.p) && t.p.Uri? && Clean(t.o) }

  /** A printed term between spaces: it starts with no space, and the next piece comes behind one. */
  ghost predicate Spaced(s: string, pos: nat, t: Term) {
    Here(s, pos, Format(t) + " ") && !Space(s[pos]) && s[pos + |Format(t)|] == ' '
  }

  lemma TermSpaced(s: string, pos: nat, t: Term)
    requires Here(s, pos, Format(t) + " ")
    ensures Spaced(s, pos, t)
  {
    FirstOf(t);
    HereSplit(s, pos, Format(t), " ");
    HereFirst(s, pos, Format(t));
    HereFirst(s, pos + |Format(t)|, " ");
  }

  lemma LineParts(t: Triple)
    ensures var line := FormatLine(t);
            var q := |Format(t.s)| + 1; var r := q + |Format(t.p)| + 1;
            && Spaced(line, 0, t.s) && Spaced(line, q, t.p) && Spaced(line, r, t.o)
            && |line| == r + |Format(t.o)| + 2 && line[|line| - 1] == '.'
  {
    var line := FormatLine(t);
    LinePieces(line, Format(t.s), Format(t.p), Format(t.o));
    TermSpaced(line, 0, t.s);
    TermSpaced(line, |Format(t.s)| + 1, t.p);
    TermSpaced(line, |Format(t.s)| + 1 + |Format(t.p)| + 1, t.o);
  }

  lemma LinePieces(line: string, s: string, p: string, o: string)
    requires line == s + " " + p + " " + o + " ."
    ensures var q := |s| + 1; var r := q + |p| + 1;
            && Here(line, 0, s + " ") && Here(line, q, p + " ") && Here(line, r, o + " ")
            && |line| == r + |o| + 2 && line[|line| - 1] == '.'
  {
  }

  lemma NoSkip(s: string, pos: nat)
    requires pos < |s| && !Space(s[pos])
    ensures SkipSpace(s, pos) == pos
  {
  }

  lemma OneSpace(s: string, pos: nat)
    requires pos + 1 < |s| && s[pos] == ' ' && !Space(s[pos + 1])
    ensures SkipSpace(s, pos) == pos + 1
  {
    NoSkip(s, pos + 1);
  }

  /** A printed line is read back as its triple exactly when the triple is clean. */
  lemma LineReads(t: Triple)
    ensures ReadLine(FormatLine(t)) == Some(t) <==> CleanTriple(t)
  {
    LineParts(t);
    var q := |Format(t.s)| + 1;
    SpacedReads(FormatLine(t), t, q, q + |Format(t.p)| + 1);
  }

  lemma SpacedReads(line: string, t: Triple, q: nat, r: nat)
    requires q == |Format(t.s)| + 1 && r == q + |Format(t.p)| + 1 && |line| == r + |Format(t.o)| + 2
    requires Spaced(line, 0, t.s) && Spaced(line, q, t.p) && Spaced(line, r, t.o) && line[|line| - 1] == '.'
    ensures ReadLine(line) == Some(t) <==> CleanTriple(t)
  {
    SubjectReads(line, 0, t.s);
    PredicateReads(line, q, t.p);
    ObjectReads(line, r, t.o);
    Gaps(line, q, r);
    PartsRead(line, t, q, r, ReadSubject, ReadPredicate, ReadObject,
              Clean(t.s) && IsResource(t.s), Clean(t.p) && t.p.Uri?, Clean(t.o));
  }

  lemma Gaps(line: string, q: nat, r: nat)
    requires 0 < q < r <= |line| - 2
    requires !Space(line[0]) && !Space(line[q]) && !Space(line[r]) && line[|line| - 1] == '.'
    requires line[q - 1] == ' ' && line[r - 1] == ' ' && line[|line| - 2] == ' '
    ensures SkipSpace(line, 0) == 0 && SkipSpace(line, q - 1) == q && SkipSpace(line, r - 1) == r
    ensures SkipSpace(line, |line| - 2) == |line| - 1
  {
    NoSkip(line, 0);
    OneSpace(line, q - 1);
    OneSpace(line, r - 1);
    OneSpace(line, |line| - 2);
  }

  lemma PartsRead(line: string, t: Triple, q: nat, r: nat,
                  subject: TermReader, verb: TermReader, object': TermReader, fits1: bool, fits2: bool, fits3: bool)
    requires 0 < q < r <= |line| - 2 && line[|line| - 1] == '.'
    requires SkipSpace(line, 0) == 0 && SkipSpace(line, q - 1) == q && SkipSpace(line, r - 1) == r
    requires SkipSpace(line, |line| - 2) == |line| - 1
    requires ReadsBack(subject(line, 0), q - 1, t.s, fits1) && ReadsBack(verb(line, q), r - 1, t.p, fits2)
    requires ReadsBack(object'(line, r), |line| - 2, t.o, fits3)
    ensures ReadParts(line, subject, verb, object') == Some(t) <==> fits1 && fits2 && fits3
  {
  }

  // ---------------------------------------------------------------- line breaks

  /** No line break where the printed form would show one. */
  predicate Unbroken(t: Term) {
    match t
    case Uri(iri) => '\n' !in iri
    case Blank(name) => '\n' !in name
    case Literal(_, annotation) => annotation.Some? ==> '\n' !in annotation.value
  }

  predicate OneLine(t: Triple) { CleanTriple(t) && Unbroken(t.s) && Unbroken(t.p) && Unbroken(t.o) }

  lemma {:induction false} EscapeUnbroken(text: string)
    ensures '\n' !in Escape(text)
  {
    if text != "" {
      assert Escape(text) == EscapeChar(text[0]) + Escape(text[1..]);
      EscapeUnbroken(text[1..]);
    }
  }

  lemma FormatUnbroken(t: Term)
    requires Unbroken(t)
    ensures '\n' !in Format(t)
  {
    if t.Literal? {
      EscapeUnbroken(t.text);
    }
  }

  lemma LineUnbroken(t: Triple)
    requires Unbroken(t.s) && Unbroken(t.p) && Unbroken(t.o)
    ensures '\n' !in FormatLine(t)
  {
    FormatUnbroken(t.s);
    FormatUnbroken(t.p);
    FormatUnbroken(t.o);
  }

  lemma SubjectUnbroken(s: string, pos: nat)
    requires '\n' !in s && pos <= |s| && ReadSubject(s, pos).Some?
    ensures Unbroken(ReadSubject(s, pos).value.0)
  {
  }

  lemma TypeUnbroken()
    ensures '\n' !in RDF_TYPE
  {
  }

  lemma PredicateUnbroken(s: string, pos: nat)
    requires '\n' !in s && pos <= |s| && ReadPredicate(s, pos).Some?
    ensures Unbroken(ReadPredicate(s, pos).value.0)
  {
    TypeUnbroken();
  }

  lemma ObjectUnbroken(s: string, pos: nat)
    requires '\n' !in s && pos <= |s| && ReadObject(s, pos).Some?
    ensures Unbroken(ReadObject(s, pos).value.0)
  {
    if !Is(s, pos, '"') && !Is(s, pos, '\'') {
      SubjectUnbroken(s, pos);
    }
  }

  lemma ReadUnbroken(line: string, t: Triple)
    requires '\n' !in line && ReadLine(line) == Some(t)
    ensures Unbroken(t.s) && Unbroken(t.p) && Unbroken(t.o)
  {
    var p := SkipSpace(line, 0);
    SubjectUnbroken(line, p);
    var q := SkipSpace(line, ReadSubject(line, p).value.1);
    PredicateUnbroken(line, q);
    var r := SkipSpace(line, ReadPredicate(line, q).value.1);
    ObjectUnbroken(line, r);
  }

  // ---------------------------------------------------------------- documents

  lemma {:induction false} TrimEndKeeps(s: string)
    requires s != "" && !Space(s[0])
    ensures var t := TrimEnd(s); t != "" && t[0] == s[0] && t <= s
  {
    if Space(s[|s| - 1]) {
      TrimEndKeeps(s[..|s| - 1]);
    }
  }

  lemma {:induction false} LineEndIs(a: string, b: string)
    requires '\n' !in a
    ensures LineEnd(a + "\n" + b) == |a|
  {
    var whole := a + "\n" + b;
    if a != "" {
      assert whole[1..] == a[1..] + "\n" + b;
      LineEndIs(a[1..], b);
    }
  }

  lemma LinesOf(first: string, rest: string)
    requires '\n' !in first
    ensures Lines(first + "\n" + rest) == [first] + Lines(rest)
  {
    var s := first + "\n" + rest;
    LineEndIs(first, rest);
    assert Lines(s) == LinesFrom(s, |first|);
    assert s[..|first|] == first && s[|first| + 1..] == rest;
  }

  /** A text with a line break in it is a line, the break and a rest. */
  lemma FirstBreak(s: string) returns (first: string, rest: string)
    requires '\n' in s
    ensures '\n' !in first && s == first + "\n" + rest
  {
    var e := LineEnd(s);
    first, rest := s[..e], s[e + 1..];
  }

  lemma {:induction false} LinesSplit(a: string, b: string)
    requires a != "" && a[|a| - 1] == '\n'
    ensures Lines(a + b) == Lines(a) + Lines(b)
    decreases |a|
  {
    var first, rest := FirstBreak(a);
    BreakMoves(a, first, rest, b);
    LinesOf(first, rest);
    LinesOf(first, rest + b);
    if rest == "" {
      assert rest + b == b;
    } else {
      LinesSplit(rest, b);
    }
    ConsAppend(first, Lines(rest), Lines(b));
  }

  lemma ConsAppend(x: string, a: seq<string>, b: seq<string>)
    ensures [x] + (a + b) == [x] + a + b
  {
  }

  lemma BreakMoves(a: string, first: string, rest: string, b: string)
    requires a == first + "\n" + rest
    ensures a + b == first + "\n" + (rest + b) && |rest| < |a| && (rest != "" ==> rest[|rest| - 1] == a[|a| - 1])
  {
  }

  lemma ThenStarts(r: Result<seq<Triple>, nat>)
    ensures Then(Ok([]), r) == r && Then(r, Ok([])) == r
  {
    if r.Ok? {
      assert [] + r.value == r.value && r.value + [] == r.value;
    }
  }

  lemma ThenAssociative(r: Result<seq<Triple>, nat>, s: Result<seq<Triple>, nat>, t: Result<seq<Triple>, nat>)
    ensures Then(Then(r, s), t) == Then(r, Then(s, t))
  {
    if r.Ok? && s.Ok? && t.Ok? {
      assert r.value + s.value + t.value == r.value + (s.value + t.value);
    }
  }

  lemma {:induction false} ReadLinesSplit(a: seq<string>, b: seq<string>, number: nat, read: LineReader)
    ensures ReadLines(a + b, number, read) == Then(ReadLines(a, number, read), ReadLines(b, number + |a|, read))
  {
    if a == [] {
      assert a + b == b;
      ThenStarts(ReadLines(b, number, read));
    } else {
      assert (a + b)[1..] == a[1..] + b;
      ReadLinesSplit(a[1..], b, number + 1, read);
      ThenAssociative(read(a[0], number), ReadLines(a[1..], number + 1, read), ReadLines(b, number + |a|, read));
    }
  }

  /** The first line of a printed triple is neither blank nor a comment. */
  lemma FirstLineCounts(t: Triple, first: string)
    requires first != "" && first <= FormatLine(t) && '\n' !in first
    ensures var line := Trim(first); line != "" && line[0] != '#' && '\n' !in line
  {
    LineParts(t);
    FirstOf(t.s);
    HereFirst(FormatLine(t), 0, Format(t.s) + " ");
    NoSkip(first, 0);
    TrimEndKeeps(first);
    assert first[0..] == first;
  }

  lemma LineTrimmed(t: Triple)
    ensures Trim(FormatLine(t)) == FormatLine(t)
  {
    LineParts(t);
    NoSkip(FormatLine(t), 0);
    assert FormatLine(t)[0..] == FormatLine(t);
  }

  lemma ChunkFirst(t: Triple) returns (first: string, rest: seq<string>)
    ensures Lines(Chunk(t)) == [first] + rest
    ensures first != "" && first <= FormatLine(t) && '\n' !in first
    ensures '\n' !in FormatLine(t) ==> first == FormatLine(t) && rest == []
  {
    LineParts(t);
    first, rest := BrokenOff(FormatLine(t));
  }

  lemma BrokenOff(line: string) returns (first: string, rest: seq<string>)
    requires line != "" && line[0] != '\n'
    ensures Lines(line + "\n") == [first] + rest && first != "" && first <= line && '\n' !in first
    ensures '\n' !in line ==> first == line && rest == []
  {
    var text := line + "\n";
    assert text[|line|] == '\n';
    var others;
    first, others := FirstBreak(text);
    LinesOf(first, others);
    rest := Lines(others);
    FirstWithin(line, first, others);
  }

  lemma FirstWithin(line: string, first: string, others: string)
    requires line != "" && line[0] != '\n' && line + "\n" == first + "\n" + others
    ensures first != "" && first <= line && ('\n' !in line ==> first == line && others == "")
  {
    var text := line + "\n";
    assert text[0] == line[0] && text[|first|] == '\n';
    assert |first| <= |line|;
    assert first == text[..|first|] == line[..|first|];
  }

  /** A printed triple's first line, read on its own. */
  lemma FirstReads(t: Triple, first: string, number: nat)
    requires first != "" && first <= FormatLine(t) && '\n' !in first
    requires '\n' !in FormatLine(t) ==> first == FormatLine(t)
    ensures var r := ReadRaw(first, number); r.Ok? ==> |r.value| == 1
    ensures ReadRaw(first, number) == Ok([t]) ==> '\n' !in FormatLine(t) && OneLine(t)
    ensures first == FormatLine(t) && OneLine(t) ==> ReadRaw(first, number) == Ok([t])
  {
    FirstLineCounts(t, first);
    var line := Trim(first);
    if ReadLine(line) == Some(t) {
      ReadUnbroken(line, t);
      LineUnbroken(t);
    }
    if first == FormatLine(t) {
      LineTrimmed(t);
      LineReads(t);
    }
  }

  lemma ReadOne(first: string, rest: seq<string>, number: nat, read: LineReader)
    ensures ReadLines([first] + rest, number, read) == Then(read(first, number), ReadLines(rest, number + 1, read))
    ensures ReadLines([], number, read) == Ok([])
  {
    var lines := [first] + rest;
    assert lines[0] == first && lines[1..] == rest;
  }

  /** What one printed triple reads back as: itself, exactly if it is clean and has no line break;
      and if there is no error, at least one triple. */
  lemma ChunkReads(t: Triple, number: nat)
    ensures ReadLines(Lines(Chunk(t)), number, ReadRaw) == Ok([t]) <==> OneLine(t)
    ensures var r := ReadLines(Lines(Chunk(t)), number, ReadRaw); r.Ok? ==> r.value != []
  {
    var first, rest := ChunkFirst(t);
    ReadOne(first, rest, number, ReadRaw);
    FirstReads(t, first, number);
    ThenOne(ReadRaw(first, number), ReadLines(rest, number + 1, ReadRaw), t);
    if OneLine(t) {
      LineUnbroken(t);
    }
  }

  lemma ThenOne(r: Result<seq<Triple>, nat>, next: Result<seq<Triple>, nat>, t: Triple)
    requires r.Ok? ==> |r.value| == 1
    ensures Then(r, next) == Ok([t]) ==> r == Ok([t])
    ensures Then(r, next).Ok? ==> Then(r, next).value != []
    ensures r == Ok([t]) && next == Ok([]) ==> Then(r, next) == Ok([t])
  {
    if r.Ok? && next.Ok? {
      assert (r.value + next.value)[0] == r.value[0] && r.value == [r.value[0]];
      assert next.value == [] ==> r.value + next.value == r.value;
    }
  }

  lemma TextSplit(a: string, b: string, number: nat, read: LineReader)
    requires a != "" && a[|a| - 1] == '\n'
    ensures ReadLines(Lines(a + b), number, read) ==
            Then(ReadLines(Lines(a), number, read), ReadLines(Lines(b), number + |Lines(a)|, read))
  {
    LinesSplit(a, b);
    ReadLinesSplit(Lines(a), Lines(b), number, read);
  }

  lemma ChunkEnds(t: Triple)
    ensures Chunk(t) != "" && Chunk(t)[|Chunk(t)| - 1] == '\n'
  {
  }

  /** What the reader makes of a chunk on its own: one line or more, and `t` alone if it fits. */
  ghost predicate ChunkBehaves(t: Triple, number: nat, chunk: Triple -> string, read: LineReader, fits: Triple -> bool) {
    && chunk(t) != "" && chunk(t)[|chunk(t)| - 1] == '\n'
    && var r := ReadLines(Lines(chunk(t)), number, read);
    && (r == Ok([t]) <==> fits(t)) && (r.Ok? ==> r.value != [])
  }

  /** Every printed triple is at least one line that counts. */
  lemma {:induction false} DocumentCounts(ts: seq<Triple>, number: nat,
                                          chunk: Triple -> string, read: LineReader, fits: Triple -> bool)
    requires forall t, n: nat :: ChunkBehaves(t, n, chunk, read, fits)
    ensures var r := ReadLines(Lines(Document(ts, chunk)), number, read); r.Ok? ==> |r.value| >= |ts|
  {
    if ts != [] {
      assert ChunkBehaves(ts[0], number, chunk, read, fits);
      TextSplit(chunk(ts[0]), Document(ts[1..], chunk), number, read);
      DocumentCounts(ts[1..], number + |Lines(chunk(ts[0]))|, chunk, read, fits);
    }
  }

  lemma {:induction false} DocumentReads(ts: seq<Triple>, number: nat,
                                         chunk: Triple -> string, read: LineReader, fits: Triple -> bool)
    requires forall t, n: nat :: ChunkBehaves(t, n, chunk, read, fits)
    ensures ReadLines(Lines(Document(ts, chunk)), number, read) == Ok(ts) <==> forall t :: t in ts ==> fits(t)
  {
    if ts != [] {
      var n := number + |Lines(chunk(ts[0]))|;
      assert ChunkBehaves(ts[0], number, chunk, read, fits);
      TextSplit(chunk(ts[0]), Document(ts[1..], chunk), number, read);
      DocumentCounts(ts[1..], n, chunk, read, fits);
      DocumentReads(ts[1..], n, chunk, read, fits);
      ThenParts(ReadLines(Lines(chunk(ts[0])), number, read), ReadLines(Lines(Document(ts[1..], chunk)), n, read), ts);
      assert (forall t :: t in ts ==> fits(t)) <==> fits(ts[0]) && forall t :: t in ts[1..] ==> fits(t);
    }
  }

  lemma ThenParts(r: Result<seq<Triple>, nat>, next: Result<seq<Triple>, nat>, ts: seq<Triple>)
    requires ts != [] && (r.Ok? ==> r.value != []) && (next.Ok? ==> |next.value| >= |ts| - 1)
    ensures Then(r, next) == Ok(ts) <==> r == Ok([ts[0]]) && next == Ok(ts[1..])
  {
    assert ts == [ts[0]] + ts[1..];
    if Then(r, next) == Ok(ts) {
      assert |r.value| == 1 && (r.value + next.value)[0] == r.value[0];
      assert (r.value + next.value)[1..] == next.value;
    }
  }

  /** Printing a list of triples as N-Triples and parsing the text gives the list back exactly when
      every triple is clean and of one line. */
  lemma NTriplesRoundTrip(ts: seq<Triple>)
    ensures ReadNTriples(NTriples(ts)) == Ok(ts) <==> forall t :: t in ts ==> OneLine(t)
  {
    forall t, n: nat ensures ChunkBehaves(t, n, Chunk, ReadRaw, OneLine) {
      ChunkEnds(t);
      ChunkReads(t, n);
    }
    DocumentReads(ts, 1, Chunk, ReadRaw, OneLine);
  }
}
