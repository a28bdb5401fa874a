/** Parsing what was printed gives the tree back exactly when the tree is canonical; printed with
    parentheses where the grammar needs them, every tree with readable leaves comes back. */
module CenqlRoundTrip {
  import opened Wrappers
  import opened CenqlModel
  import opened CenqlGrammar

  // ---------------------------------------------------------------- literals and names

  lemma {:induction false} DecimalReads(v: nat)
    ensures Decimal(v) != "" && DigitsValue(Decimal(v)) == Some(v)
  {
    var text := Decimal(v);
    if v >= 10 {
      DecimalReads(v / 10);
      assert text[..|text| - 1] == Decimal(v / 10);
    } else {
      assert text[..|text| - 1] == "";
    }
  }

  lemma {:induction false} DotFree(name: string)
    requires '.' !in name
    ensures PathTokens(name) == [Ident(name)]
  {
    assert FirstDot(name) == |name|;
  }

  /** The segments of a dotted name. */
  function Segments(s: string): (names: seq<string>)
    ensures names != []
  {
    var i := FirstDot(s);
    if i == |s| then [s] else [s[..i]] + Segments(s[i + 1..])
  }

  lemma {:induction false} SegmentsSpell(s: string)
    ensures PathSpelled(Segments(s)) == PathTokens(s) && Joined(Segments(s)) == s
  {
    var i := FirstDot(s);
    if i < |s| {
      SegmentsSpell(s[i + 1..]);
      assert Segments(s)[1..] == Segments(s[i + 1..]);
      assert s[..i] + "." + s[i + 1..] == s;
    }
  }

  // ---------------------------------------------------------------- printing with parentheses

  /** Every number is one the parser reads, and there are no truth values, which have no literal. */
  predicate Writable(e: Expr) {
    match e
    case I64(v) => 0 <= v < I64_RANGE
    case Bool(_) => false
    case Binary(_, lhs, rhs) => Writable(lhs) && Writable(rhs)
    case Call(_, args) => forall i :: 0 <= i < |args| ==> Writable(args[i])
    case _ => true
  }

  /** The tree in writing, with parentheses around an operator that stands where only tighter ones may. */
  function Parens(e: Expr, level: nat): Syntax
    requires Writable(e)
  {
    match e
    case Column(path) => Path(Segments(path))
    case I64(v) => Num(Decimal(v))
    case Str(text) => Text(text)
    case Binary(op, lhs, rhs) =>
      var c := Infix(op, Parens(lhs, LeftLevel(op)), Parens(rhs, Level(op) + 1));
      if Level(op) >= level then c else Group(c)
    case Call(name, args) =>
      Apply(name, seq(|args|, i requires 0 <= i < |args| => Parens(args[i], 0)))
  }

  lemma {:induction false} ParensMean(e: Expr, level: nat)
    requires Writable(e)
    ensures Means(Parens(e, level), e, level)
  {
    match e
    case Column(path) => SegmentsSpell(path);
    case I64(v) => DecimalReads(v);
    case Str(_) =>
    case Binary(op, lhs, rhs) =>
      ParensMean(lhs, LeftLevel(op));
      ParensMean(rhs, Level(op) + 1);
    case Call(name, args) =>
      forall i | 0 <= i < |args| ensures Means(Parens(args[i], 0), args[i], 0) {
        ParensMean(args[i], 0);
      }
  }

  /** Only trees with readable leaves can be written at all. */
  lemma {:induction false} MeantIsWritable(c: Syntax, e: Expr, level: nat)
    requires Means(c, e, level)
    ensures Writable(e)
  {
    match c
    case Infix(op, lhs, rhs) =>
      MeantIsWritable(lhs, e.lhs, LeftLevel(op));
      MeantIsWritable(rhs, e.rhs, Level(op) + 1);
    case Apply(name, args) =>
      forall i | 0 <= i < |args| ensures Writable(e.args[i]) {
        MeantIsWritable(args[i], e.args[i], 0);
      }
    case Group(inner) => MeantIsWritable(inner, e, 0);
    case _ =>
  }

  /** A tree can be written for every level, or for none, and it can exactly if its leaves are readable. */
  lemma WritableExact(e: Expr, level: nat)
    ensures Writable(e) <==> exists c :: Means(c, e, level)
  {
    if Writable(e) {
      ParensMean(e, level);
      assert Means(Parens(e, level), e, level);
    }
    forall c | Means(c, e, level) ensures Writable(e) {
      MeantIsWritable(c, e, level);
    }
  }

  ghost predicate WrittenAs(c: Syntax, ts: seq<Token>, e: Expr) { Means(c, e, 0) && ts == Spelled(c) + [Eof] }

  /** The whole token list is a way to write `e`. */
  ghost predicate Writes(ts: seq<Token>, e: Expr) { exists c :: WrittenAs(c, ts, e) }

  ghost predicate ReadsWhole(ts: seq<Token>, e: Expr)
    requires Closed(ts)
  {
    Parse(ts, 0, 0) == Ok((e, |ts| - 1))
  }

  lemma SpelledReads(c: Syntax, e: Expr)
    requires Means(c, e, 0)
    ensures Parse(Spelled(c) + [Eof], 0, 0) == Ok((e, |Spelled(c)|))
  {
    SpelledSome(c, e, 0);
    WrittenIsRead(c, e, Spelled(c) + [Eof], 0, 0);
  }

  lemma WholeIsWritten(ts: seq<Token>, e: Expr) returns (c: Syntax)
    requires Closed(ts) && ReadsWhole(ts, e)
    ensures WrittenAs(c, ts, e)
  {
    c := ReadIsWritten(ts, 0, 0);
  }

  lemma WrittenWhole(c: Syntax, ts: seq<Token>, e: Expr)
    requires WrittenAs(c, ts, e)
    ensures Closed(ts) && ReadsWhole(ts, e)
  {
    SpelledReads(c, e);
  }

  /** What the parser reads from the whole of a token list is exactly what the list writes. */
  lemma GrammarExact(ts: seq<Token>, e: Expr)
    requires Closed(ts)
    ensures ReadsWhole(ts, e) <==> Writes(ts, e)
  {
    if ReadsWhole(ts, e) {
      var c := WholeIsWritten(ts, e);
    }
    forall c | WrittenAs(c, ts, e) ensures ReadsWhole(ts, e) {
      WrittenWhole(c, ts, e);
    }
  }

  /** A token list has at most one reading. */
  lemma OneMeaning(c: Syntax, d: Syntax, e: Expr, f: Expr)
    requires Means(c, e, 0) && Means(d, f, 0) && Spelled(c) == Spelled(d)
    ensures e == f
  {
    SpelledReads(c, e);
    SpelledReads(d, f);
  }

  /** Every tree with readable leaves, printed with parentheses, is read back whole. */
  lemma ParensReadBack(e: Expr)
    requires Writable(e)
    ensures var written := Spelled(Parens(e, 0)); Parse(written + [Eof], 0, 0) == Ok((e, |written|))
  {
    ParensMean(e, 0);
    SpelledReads(Parens(e, 0), e);
  }

  // ---------------------------------------------------------------- canonical trees are read back

  lemma {:induction false} CanonicalBelow(e: Expr, high: nat, low: nat)
    requires Canonical(e, high) && low <= high
    ensures Canonical(e, low)
  {
  }

  ghost predicate AllCanonical(args: seq<Expr>) { forall i :: 0 <= i < |args| ==> Canonical(args[i], 0) }

  /** A canonical tree needs no parentheses: written with those it needs, it is as printed. */
  lemma {:induction false} CanonicalIsBare(e: Expr, level: nat)
    requires Canonical(e, level)
    ensures Writable(e) && Spelled(Parens(e, level)) == Printed(e)
    decreases e, 1
  {
    match e
    case Column(path) => SegmentsSpell(path);
    case Binary(op, lhs, rhs) =>
      CanonicalIsBare(lhs, LeftLevel(op));
      CanonicalIsBare(rhs, Level(op) + 1);
    case Call(name, args) =>
      DotFree(name);
      forall i | 0 <= i < |args| ensures Writable(args[i]) && Spelled(Parens(args[i], 0)) == Printed(args[i]) {
        CanonicalIsBare(args[i], 0);
      }
      ArgsAreBare(Parens(e, level).args, args);
    case _ =>
  }

  lemma {:induction false} ArgsAreBare(cs: seq<Syntax>, args: seq<Expr>)
    requires |cs| == |args| && forall i :: 0 <= i < |cs| ==> Spelled(cs[i]) == Printed(args[i])
    ensures ArgsSpelled(cs) == PrintedArgs(args)
  {
    if |cs| > 1 {
      ArgsAreBare(cs[1..], args[1..]);
    }
  }

  ghost predicate Reads(e: Expr, ts: seq<Token>, pos: nat, level: nat)
    requires Closed(ts) && pos < |ts| && level <= PRIMARY
  {
    Parse(ts, pos, level) == Ok((e, pos + |Printed(e)|))
  }

  /** The tokens of `e` stand at `pos` and the one after them ends it at `level`. */
  ghost predicate Shown(e: Expr, ts: seq<Token>, pos: nat, level: nat) {
    && Closed(ts) && pos < |ts| && level <= PRIMARY && At(ts, pos, Printed(e))
    && pos + |Printed(e)| < |ts| && Ends(ts[pos + |Printed(e)|], level)
  }

  /** Printed in place, a canonical tree is what its level parses there. */
  lemma CanonicalReads(e: Expr, ts: seq<Token>, pos: nat, level: nat)
    requires Shown(e, ts, pos, level) && Canonical(e, level)
    ensures Reads(e, ts, pos, level)
  {
    CanonicalIsBare(e, level);
    ParensMean(e, level);
    WrittenIsRead(Parens(e, level), e, ts, pos, level);
  }

  /** In parentheses, a canonical tree stands at every level: the operators inside are done with
      before those around. */
  lemma GroupReads(e: Expr, ts: seq<Token>, pos: nat, level: nat)
    requires Canonical(e, 0) && Closed(ts) && level <= PRIMARY
    requires At(ts, pos, [LParen] + Printed(e) + [RParen]) && pos + |Printed(e)| + 2 < |ts|
    requires Ends(ts[pos + |Printed(e)| + 2], level)
    ensures Parse(ts, pos, level) == Ok((e, pos + |Printed(e)| + 2))
  {
    CanonicalIsBare(e, 0);
    ParensMean(e, 0);
    WrittenIsRead(Group(Parens(e, 0)), e, ts, pos, level);
  }

  // ---------------------------------------------------------------- only canonical trees are read

  /** No grouping: each opening parenthesis follows an identifier, and identifiers have no dots. */
  ghost predicate Plain(ts: seq<Token>) {
    && (forall i :: 0 <= i < |ts| && ts[i] == LParen ==> i > 0 && ts[i - 1].Ident?)
    && (forall i :: 0 <= i < |ts| && ts[i].Ident? ==> '.' !in ts[i].name)
  }

  ghost predicate AfterNoName(ts: seq<Token>, pos: nat)
    requires pos <= |ts|
  {
    pos == 0 || !ts[pos - 1].Ident?
  }

  /** Whatever is parsed from plain tokens is canonical. */
  lemma {:induction false} ParsedCanonical(ts: seq<Token>, pos: nat, level: nat)
    requires Closed(ts) && pos < |ts| && level <= PRIMARY && Plain(ts) && AfterNoName(ts, pos)
    ensures var r := Parse(ts, pos, level); r.Ok? ==> Canonical(r.value.0, level)
    decreases |ts| - pos, 2 * (PRIMARY - level) + 1
  {
    if level == PRIMARY {
      UnitCanonical(ts, pos);
    } else {
      ParsedCanonical(ts, pos, level + 1);
      var r := Parse(ts, pos, level + 1);
      if r.Ok? {
        CanonicalBelow(r.value.0, level + 1, if level == COMPARISON then level + 1 else level);
        ContinueCanonical(ts, r.value.1, level, r.value.0);
      }
    }
  }

  lemma {:induction false} ContinueCanonical(ts: seq<Token>, pos: nat, level: nat, lhs: Expr)
    requires Closed(ts) && pos < |ts| && level < PRIMARY && Plain(ts)
    requires Canonical(lhs, if level == COMPARISON then level + 1 else level)
    ensures var r := Continue(ts, pos, level, lhs); r.Ok? ==> Canonical(r.value.0, level)
    decreases |ts| - pos, 0
  {
    if ts[pos].Operator? && Level(ts[pos].op) == level {
      ParsedCanonical(ts, pos + 1, level + 1);
      var r := Parse(ts, pos + 1, level + 1);
      if r.Ok? {
        var e := Binary(ts[pos].op, lhs, r.value.0);
        assert Canonical(e, level);
        if level != COMPARISON {
          ContinueCanonical(ts, r.value.1, level, e);
        }
      }
    } else {
      CanonicalBelow(lhs, if level == COMPARISON then level + 1 else level, level);
    }
  }

  lemma {:induction false} UnitCanonical(ts: seq<Token>, pos: nat)
    requires Closed(ts) && pos < |ts| && Plain(ts) && AfterNoName(ts, pos)
    ensures var r := ParseUnit(ts, pos); r.Ok? ==> Canonical(r.value.0, PRIMARY)
    decreases |ts| - pos, 0
  {
    match ts[pos]
    case Ident(name) =>
      if ts[pos + 1] == LParen {
        if ts[pos + 2] != RParen {
          ArgsCanonical(ts, pos + 2);
        }
      } else {
        PathIsColumn(ts, pos + 1, name);
      }
    case _ =>
  }

  lemma {:induction false} PathIsColumn(ts: seq<Token>, pos: nat, full: string)
    requires Closed(ts) && pos < |ts|
    ensures var r := ParsePath(ts, pos, full); r.Ok? ==> r.value.0.Column?
    decreases |ts| - pos
  {
    if ts[pos] == Dot && ts[pos + 1].Ident? {
      PathIsColumn(ts, pos + 2, full + "." + ts[pos + 1].name);
    }
  }

  lemma AllCanonicalCons(arg: Expr, rest: seq<Expr>)
    requires Canonical(arg, 0) && AllCanonical(rest)
    ensures AllCanonical([arg] + rest)
  {
  }

  lemma {:induction false} ArgsCanonical(ts: seq<Token>, pos: nat)
    requires Closed(ts) && pos < |ts| && Plain(ts) && AfterNoName(ts, pos)
    ensures var r := ParseArgs(ts, pos); r.Ok? ==> AllCanonical(r.value.0)
    decreases |ts| - pos, 12
  {
    ParsedCanonical(ts, pos, 0);
    var r := Parse(ts, pos, 0);
    if r.Ok? {
      var (arg, p) := r.value;
      ArgsStep(ts, pos, arg, p);
      if ts[p] == Comma {
        ArgsCanonical(ts, p + 1);
        if ParseArgs(ts, p + 1).Ok? {
          AllCanonicalCons(arg, ParseArgs(ts, p + 1).value.0);
        }
      }
    }
  }

  // ---------------------------------------------------------------- printed tokens are plain

  lemma PlainConcat(a: seq<Token>, b: seq<Token>)
    requires Plain(a) && Plain(b)
    ensures Plain(a + b)
  {
    forall i | 0 <= i < |a + b| && (a + b)[i] == LParen ensures i > 0 && (a + b)[i - 1].Ident? {
      if i >= |a| {
        assert b[i - |a|] == LParen;
      }
    }
  }

  lemma {:induction false} PathPlain(s: string)
    ensures Plain(PathTokens(s)) && |PathTokens(s)| > 0 && PathTokens(s)[|PathTokens(s)| - 1].Ident?
  {
    var i := FirstDot(s);
    if i < |s| {
      PathPlain(s[i + 1..]);
      PlainConcat([Ident(s[..i]), Dot], PathTokens(s[i + 1..]));
    } else {
      assert s[..i] == s;
    }
  }

  lemma {:induction false} PrintedPlain(e: Expr)
    ensures Plain(Printed(e))
    decreases e, 0
  {
    match e
    case Column(path) => PathPlain(path);
    case Binary(op, lhs, rhs) =>
      PrintedPlain(lhs);
      PrintedPlain(rhs);
      PlainConcat(Printed(lhs), [Operator(op)]);
      PlainConcat(Printed(lhs) + [Operator(op)], Printed(rhs));
    case Call(name, args) =>
      PathPlain(name);
      ArgsPlain(e, args);
      var head := PathTokens(name) + [LParen];
      assert Plain(head);
      PlainConcat(head, PrintedArgs(args));
      PlainConcat(head + PrintedArgs(args), [RParen]);
    case _ =>
  }

  lemma {:induction false} ArgsPlain(e: Expr, args: seq<Expr>)
    requires forall i :: 0 <= i < |args| ==> args[i] < e
    ensures Plain(PrintedArgs(args))
    decreases e, 0, |args|
  {
    if args != [] {
      PrintedPlain(args[0]);
      if |args| > 1 {
        ArgsPlain(e, args[1..]);
        PlainConcat(Printed(args[0]), [Comma]);
        PlainConcat(Printed(args[0]) + [Comma], PrintedArgs(args[1..]));
      }
    }
  }

  // ---------------------------------------------------------------- the round trip

  /** Printing and parsing is the identity, with every token used, exactly on canonical trees. */
  lemma RoundTrip(e: Expr)
    ensures Parse(Printed(e) + [Eof], 0, 0) == Ok((e, |Printed(e)|)) <==> Canonical(e, 0)
  {
    var ts := Printed(e) + [Eof];
    if Canonical(e, 0) {
      CanonicalReads(e, ts, 0, 0);
    }
    if Parse(ts, 0, 0) == Ok((e, |Printed(e)|)) {
      PrintedPlain(e);
      PlainConcat(Printed(e), [Eof]);
      ParsedCanonical(ts, 0, 0);
    }
  }

  /** So two canonical trees never print alike. */
  lemma PrintedInjective(a: Expr, b: Expr)
    requires Canonical(a, 0) && Canonical(b, 0) && Printed(a) == Printed(b)
    ensures a == b
  {
    RoundTrip(a);
    RoundTrip(b);
  }

  /** Any tree read from tokens without grouping parentheses prints to something that reads back. */
  lemma ParsedReadsBack(ts: seq<Token>)
    requires Closed(ts) && Plain(ts) && Parse(ts, 0, 0).Ok?
    ensures var e := Parse(ts, 0, 0).value.0; Parse(Printed(e) + [Eof], 0, 0) == Ok((e, |Printed(e)|))
  {
    ParsedCanonical(ts, 0, 0);
    RoundTrip(Parse(ts, 0, 0).value.0);
  }

  /** The parentheses of `a - (b - c)` are not printed: it is read back as `(a - b) - c`. */
  lemma Reassociates(op: BinaryOp, a: Expr, b: Expr, c: Expr)
    requires Canonical(Binary(op, Binary(op, a, b), c), 0)
    ensures var e := Binary(op, a, Binary(op, b, c));
            Parse(Printed(e) + [Eof], 0, 0) == Ok((Binary(op, Binary(op, a, b), c), |Printed(e)|))
  {
    var e, f := Binary(op, a, Binary(op, b, c)), Binary(op, Binary(op, a, b), c);
    assert Printed(e) == Printed(f);
    RoundTrip(f);
  }
}
