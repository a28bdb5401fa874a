/** Turtle texts with declarations, prefixed names and comments: they are read as the triples written,
    each name standing for what its prefix means at that place. */
module TurtlePrefixes {
  import opened Wrappers
  import opened RdfStore
  import opened RdfText
  import opened RdfTextProofs
  import opened Turtle
  import opened TurtleProofs

  // ---------------------------------------------------------------- prefixed names

  predicate NameLetter(c: char) { TagChar(c) || c == '_' }

  /** A prefix as it may be declared and used: nothing, or a letter and more name characters. */
  predicate CleanName(name: string) {
    (name != "" ==> Letter(name[0])) && forall c :: c in name ==> NameLetter(c)
  }

  function ShortText(name: string, local: string): string { name + ":" + local }

  lemma {:induction false} PrefixEndHere(s: string, pos: nat, name: string)
    requires Here(s, pos, name + ":") && forall c :: c in name ==> NameLetter(c)
    ensures PrefixEnd(s, pos) == Some(pos + |name|)
    decreases |name|
  {
    assert s[pos + 0] == (name + ":")[0];
    if name != "" {
      assert name[0] in name;
      assert name + ":" == [name[0]] + (name[1..] + ":");
      HereSplit(s, pos, [name[0]], name[1..] + ":");
      assert forall c :: c in name[1..] ==> c in name;
      PrefixEndHere(s, pos + 1, name[1..]);
    }
  }

  lemma ShortPieces(s: string, pos: nat, name: string, local: string)
    requires Here(s, pos, ShortText(name, local) + " ")
    ensures Here(s, pos, name + ":") && Here(s, pos + |name| + 1, local + " ") && Here(s, pos + |name| + 1, local)
    ensures pos + |name| < |s| && s[pos + |name|] == ':' && Here(s, pos, name)
  {
    assert ShortText(name, local) + " " == (name + ":") + (local + " ");
    HereSplit(s, pos, name + ":", local + " ");
    HereSplit(s, pos + |name| + 1, local, " ");
    HereSplit(s, pos, name, ":");
    HereFirst(s, pos + |name|, ":");
  }

  lemma NameReads(s: string, pos: nat, name: string, local: string)
    requires Here(s, pos, ShortText(name, local) + " ") && CleanName(name) && CleanLabel(local)
    ensures ReadPrefixed(s, pos) == Some(((name, local), pos + |ShortText(name, local)|))
  {
    ShortPieces(s, pos, name, local);
    PrefixEndHere(s, pos, name);
    LabelEndHere(s, pos + |name| + 1, local);
    HereSlice(s, pos, name);
    HereSlice(s, pos + |name| + 1, local);
  }

  lemma NameStarts(s: string, pos: nat, name: string, local: string)
    requires Here(s, pos, ShortText(name, local) + " ") && CleanName(name)
    ensures pos < |s| && (Letter(s[pos]) || s[pos] == ':') && SkipSpace(s, pos) == pos && !TypeKeyword(s, pos)
  {
    ShortPieces(s, pos, name, local);
    if name != "" {
      HereFirst(s, pos, name);
      if |name| > 1 {
        assert s[pos + 1] == name[1] && name[1] in name;
      }
    }
    NoSkip(s, pos);
  }

  /** A prefixed name stands for the IRI its prefix has been declared for, followed by the local part;
      it is an error if the prefix has not been declared. */
  lemma PrefixedReads(s: string, pos: nat, name: string, local: string, prefixes: Prefixes)
    requires Here(s, pos, ShortText(name, local) + " ") && CleanName(name) && CleanLabel(local)
    ensures ReadTerm(s, pos, prefixes) == ReadVerb(s, pos, prefixes) ==
            if name in prefixes then Some((Uri(prefixes[name] + local), pos + |ShortText(name, local)|)) else None
  {
    NameReads(s, pos, name, local);
    NameStarts(s, pos, name, local);
  }

  // ---------------------------------------------------------------- no declaration

  /** A name before a colon is no keyword of a declaration. */
  lemma NameIsNoKeyword(s: string, pos: nat, name: string, local: string, word: string)
    requires Here(s, pos, ShortText(name, local) + " ") && CleanName(name) && word != "" && ':' !in word
    ensures !Keyword(s, pos, word)
  {
    ShortPieces(s, pos, name, local);
    var n := |word|;
    if pos + n <= |s| {
      if n > |name| {
        assert s[pos..pos + n][|name|] == ':';
      } else if n < |name| {
        assert s[pos + n] == name[n] && name[n] in name;
      }
    }
  }

  lemma NoDeclaration(s: string, pos: nat, name: string, local: string)
    requires Here(s, pos, ShortText(name, local) + " ") && CleanName(name)
    ensures PrefixWord(s, pos) == 0 && BaseWord(s, pos) == 0
  {
    NameIsNoKeyword(s, pos, name, local, "@prefix");
    NameIsNoKeyword(s, pos, name, local, "PREFIX");
    NameIsNoKeyword(s, pos, name, local, "@base");
    NameIsNoKeyword(s, pos, name, local, "BASE");
  }

  // ---------------------------------------------------------------- styles

  /** How terms are written where the prefixes mean what they do there. */
  type Style = (Prefixes, Term) -> string

  function With(style: Style, prefixes: Prefixes): Printer { (t: Term) => style(prefixes, t) }

  /** `name:local` writes the IRI. */
  predicate Shortens(name: string, local: string, iri: string, prefixes: Prefixes) {
    CleanName(name) && CleanLabel(local) && name in prefixes && prefixes[name] + local == iri
  }

  /** A term is written in full, or an IRI by any declared prefix it starts with. */
  ghost predicate Faithful(t: Term, text: string, prefixes: Prefixes) {
    || (Clean(t) && text == Format(t))
    || (t.Uri? && exists name, local :: Shortens(name, local, t.iri, prefixes) && text == ShortText(name, local))
  }

  /** Read back as the term, and at the start of a statement taken for no declaration. */
  ghost predicate Sound(t: Term, show: Printer, prefixes: Prefixes) {
    && Shown(t, show, Terms(prefixes)) && Shown(t, show, Verbs(prefixes))
    && forall s: string, pos: nat :: Here(s, pos, show(t) + " ") ==> PrefixWord(s, pos) == 0 && BaseWord(s, pos) == 0
  }

  lemma ShortSound(t: Term, show: Printer, name: string, local: string, prefixes: Prefixes)
    requires t.Uri? && Shortens(name, local, t.iri, prefixes) && show(t) == ShortText(name, local)
    ensures Sound(t, show, prefixes)
  {
    forall s: string, pos: nat | Here(s, pos, show(t) + " ")
      ensures ReadTerm(s, pos, prefixes) == ReadVerb(s, pos, prefixes) == Some((t, pos + |show(t)|))
      ensures PrefixWord(s, pos) == 0 && BaseWord(s, pos) == 0
    {
      PrefixedReads(s, pos, name, local, prefixes);
      NoDeclaration(s, pos, name, local);
    }
    assert name != "" ==> show(t)[0] == name[0];
  }

  lemma FullHere(s: string, pos: nat, t: Term)
    requires Here(s, pos, Format(t) + " ")
    ensures PrefixWord(s, pos) == 0 && BaseWord(s, pos) == 0
  {
    FirstOf(t);
    HereSplit(s, pos, Format(t), " ");
    HereFirst(s, pos, Format(t));
    NoDirective(s, pos);
  }

  lemma FullSound(t: Term, show: Printer, prefixes: Prefixes)
    requires Clean(t) && show(t) == Format(t)
    ensures Sound(t, show, prefixes)
  {
    FirstOf(t);
    forall s: string, pos: nat | Here(s, pos, show(t) + " ")
      ensures ReadTerm(s, pos, prefixes) == ReadVerb(s, pos, prefixes) == Some((t, pos + |show(t)|))
    {
      CleanHere(s, pos, t, prefixes);
    }
    forall s: string, pos: nat | Here(s, pos, show(t) + " ") ensures PrefixWord(s, pos) == 0 && BaseWord(s, pos) == 0 {
      FullHere(s, pos, t);
    }
  }

  lemma FaithfulSound(t: Term, style: Style, prefixes: Prefixes)
    requires Faithful(t, style(prefixes, t), prefixes)
    ensures Sound(t, With(style, prefixes), prefixes)
  {
    var show := With(style, prefixes);
    if Clean(t) && show(t) == Format(t) {
      FullSound(t, show, prefixes);
    } else {
      var name, local :| Shortens(name, local, t.iri, prefixes) && show(t) == ShortText(name, local);
      ShortSound(t, show, name, local, prefixes);
    }
  }
}
