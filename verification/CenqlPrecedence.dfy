/** Which operator takes the operand between two of them, when there are no parentheses. */
module CenqlPrecedence {
  import opened Wrappers
  import opened CenqlModel
  import opened CenqlGrammar
  import opened CenqlRoundTrip

  /** Multiplication and division bind tightest, then addition and subtraction, then comparisons,
      then `and`, then `or`. */
  predicate Tighter(p: BinaryOp, o: BinaryOp) {
    match o
    case Or => p != Or
    case And => p != Or && p != And
    case Add | Sub => p == Mul || p == Div
    case Mul | Div => false
    case _ => p == Add || p == Sub || p == Mul || p == Div
  }

  predicate Compares(o: BinaryOp) { o == Eq || o == Ne || o == Lt || o == Le || o == Gt || o == Ge }

  lemma LevelsExact(p: BinaryOp, o: BinaryOp)
    ensures Tighter(p, o) <==> Level(p) > Level(o)
    ensures Compares(o) <==> Level(o) == COMPARISON
    ensures Level(o) < PRIMARY
  {
  }

  predicate Unit(e: Expr) { Canonical(e, PRIMARY) }

  function InARow(a: Expr, o: BinaryOp, b: Expr, p: BinaryOp, c: Expr): seq<Token> {
    Printed(a) + [Operator(o)] + Printed(b) + [Operator(p)] + Printed(c)
  }

  ghost predicate ReadAs(written: seq<Token>, e: Expr) {
    Parse(written + [Eof], 0, 0) == Ok((e, |written|))
  }

  lemma UnitAnywhere(e: Expr, level: nat)
    requires Unit(e) && level <= PRIMARY
    ensures Canonical(e, level)
  {
    CanonicalBelow(e, PRIMARY, level);
  }

  lemma PrintedReads(written: seq<Token>, e: Expr)
    requires Canonical(e, 0) && Printed(e) == written
    ensures ReadAs(written, e)
  {
    RoundTrip(e);
  }

  lemma PrintedInARow(a: Expr, o: BinaryOp, b: Expr, p: BinaryOp, c: Expr)
    ensures Printed(Binary(o, a, Binary(p, b, c))) == InARow(a, o, b, p, c)
  {
    assert Printed(a) + [Operator(o)] + (Printed(b) + [Operator(p)] + Printed(c)) == InARow(a, o, b, p, c);
  }

  /** A tighter operator takes the operand from the one before it. */
  lemma TighterTakes(a: Expr, o: BinaryOp, b: Expr, p: BinaryOp, c: Expr)
    requires Unit(a) && Unit(b) && Unit(c) && Tighter(p, o)
    ensures ReadAs(InARow(a, o, b, p, c), Binary(o, a, Binary(p, b, c)))
  {
    LevelsExact(p, o);
    LevelsExact(o, p);
    UnitAnywhere(a, LeftLevel(o));
    UnitAnywhere(b, LeftLevel(p));
    UnitAnywhere(c, Level(p) + 1);
    var e := Binary(p, b, c);
    assert Canonical(e, Level(o) + 1);
    PrintedInARow(a, o, b, p, c);
    PrintedReads(InARow(a, o, b, p, c), Binary(o, a, e));
  }

  /** Otherwise the first operator has it, two that bind alike included. */
  lemma FirstTakes(a: Expr, o: BinaryOp, b: Expr, p: BinaryOp, c: Expr)
    requires Unit(a) && Unit(b) && Unit(c) && !Tighter(p, o) && !(Compares(o) && Compares(p))
    ensures ReadAs(InARow(a, o, b, p, c), Binary(p, Binary(o, a, b), c))
  {
    LevelsExact(p, o);
    LevelsExact(o, p);
    UnitAnywhere(a, LeftLevel(o));
    UnitAnywhere(b, Level(o) + 1);
    UnitAnywhere(c, Level(p) + 1);
    var e := Binary(o, a, b);
    assert Canonical(e, LeftLevel(p));
    PrintedReads(InARow(a, o, b, p, c), Binary(p, e, c));
  }

  /** A comparison is not continued by another one: reading ends before it. */
  lemma ComparesOnce(a: Expr, o: BinaryOp, b: Expr, p: BinaryOp, rest: seq<Token>)
    requires Unit(a) && Unit(b) && Compares(o) && Compares(p)
    ensures var e := Binary(o, a, b); Parse(Printed(e) + [Operator(p)] + rest + [Eof], 0, 0) == Ok((e, |Printed(e)|))
  {
    var e := Binary(o, a, b);
    var ts, q := Printed(e) + [Operator(p)] + rest + [Eof], |Printed(e)|;
    LevelsExact(p, o);
    LevelsExact(o, p);
    UnitAnywhere(a, COMPARISON + 1);
    UnitAnywhere(b, COMPARISON + 1);
    assert Canonical(e, COMPARISON);
    CanonicalIsBare(e, COMPARISON);
    ParensMean(e, COMPARISON);
    StopsAt(Parens(e, COMPARISON), e, ts, q);
  }

  lemma StopsAt(c: Syntax, e: Expr, ts: seq<Token>, q: nat)
    requires Closed(ts) && c.Infix? && Level(c.op) == COMPARISON && Means(c, e, COMPARISON)
    requires q == |Spelled(c)| < |ts| && At(ts, 0, Spelled(c)) && ts[q].Operator? && Level(ts[q].op) == COMPARISON
    ensures Parse(ts, 0, 0) == Ok((e, q))
  {
    Reached(c, e, ts, 0, COMPARISON);
    PassedOn(ts, e, q);
  }

  /** An operator of the comparison level is none of the levels above it. */
  lemma PassedOn(ts: seq<Token>, e: Expr, q: nat)
    requires Closed(ts) && q < |ts| && ts[q].Operator? && Level(ts[q].op) == COMPARISON
    requires Parse(ts, 0, COMPARISON) == Ok((e, q))
    ensures Parse(ts, 0, 0) == Ok((e, q))
  {
    ParseStep(ts, 0, 1, e, q);
    ParseStep(ts, 0, 0, e, q);
  }

  function Enclosed(e: Expr): seq<Token> { [LParen] + Printed(e) + [RParen] }

  /** Parentheses keep the operand with the operator inside them, however tight the one behind. */
  lemma KeptOnTheLeft(a: Expr, o: BinaryOp, b: Expr, p: BinaryOp, c: Expr)
    requires Unit(a) && Unit(b) && Unit(c)
    ensures ReadAs(Enclosed(Binary(o, a, b)) + [Operator(p)] + Printed(c), Binary(p, Binary(o, a, b), c))
  {
    InParentheses(o, a, b);
    AsWritten(c);
    LevelsExact(p, p);
    MeansBelow(Parens(c, PRIMARY), c, PRIMARY, Level(p) + 1);
    GroupThen(p, Parens(Binary(o, a, b), 0), Parens(c, PRIMARY), Binary(o, a, b), c);
  }

  lemma GroupThen(p: BinaryOp, x: Syntax, y: Syntax, e: Expr, c: Expr)
    requires Means(x, e, 0) && Spelled(x) == Printed(e) && Means(y, c, Level(p) + 1) && Spelled(y) == Printed(c)
    ensures ReadAs(Enclosed(e) + [Operator(p)] + Printed(c), Binary(p, e, c))
  {
    SpelledReads(Infix(p, Group(x), y), Binary(p, e, c));
  }

  /** The same however tight the operator in front. */
  lemma KeptOnTheRight(a: Expr, o: BinaryOp, b: Expr, p: BinaryOp, c: Expr)
    requires Unit(a) && Unit(b) && Unit(c)
    ensures ReadAs(Printed(a) + [Operator(o)] + Enclosed(Binary(p, b, c)), Binary(o, a, Binary(p, b, c)))
  {
    InParentheses(p, b, c);
    AsWritten(a);
    LevelsExact(o, o);
    MeansBelow(Parens(a, PRIMARY), a, PRIMARY, LeftLevel(o));
    ThenGroup(o, Parens(a, PRIMARY), Parens(Binary(p, b, c), 0), a, Binary(p, b, c));
  }

  lemma ThenGroup(o: BinaryOp, x: Syntax, y: Syntax, a: Expr, e: Expr)
    requires Means(x, a, LeftLevel(o)) && Spelled(x) == Printed(a) && Means(y, e, 0) && Spelled(y) == Printed(e)
    ensures ReadAs(Printed(a) + [Operator(o)] + Enclosed(e), Binary(o, a, e))
  {
    SpelledReads(Infix(o, x, Group(y)), Binary(o, a, e));
  }

  lemma AsWritten(e: Expr)
    requires Unit(e)
    ensures Writable(e) && Spelled(Parens(e, PRIMARY)) == Printed(e) && Means(Parens(e, PRIMARY), e, PRIMARY)
  {
    CanonicalIsBare(e, PRIMARY);
    ParensMean(e, PRIMARY);
  }

  lemma InParentheses(o: BinaryOp, a: Expr, b: Expr)
    requires Unit(a) && Unit(b)
    ensures var e := Binary(o, a, b);
            Writable(e) && Spelled(Parens(e, 0)) == Printed(e) && Means(Parens(e, 0), e, 0)
  {
    var e := Binary(o, a, b);
    LevelsExact(o, o);
    UnitAnywhere(a, LeftLevel(o));
    UnitAnywhere(b, Level(o) + 1);
    CanonicalIsBare(e, 0);
    ParensMean(e, 0);
  }
}
