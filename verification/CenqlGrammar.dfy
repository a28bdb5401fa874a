/** The ways to write an expression, parentheses included, and that the parser reads exactly these. */
module CenqlGrammar {
  import opened Wrappers
  import opened CenqlModel

  /** An expression as it is written: a path by its segments, parentheses as they stand. */
  datatype Syntax =
    | Num(digits: string)
    | Text(text: string)
    | Path(names: seq<string>)
    | Apply(name: string, args: seq<Syntax>)
    | Infix(op: BinaryOp, lhs: Syntax, rhs: Syntax)
    | Group(inner: Syntax)

  function PathSpelled(names: seq<string>): seq<Token> {
    if names == [] then []
    else if |names| == 1 then [Ident(names[0])]
    else [Ident(names[0]), Dot] + PathSpelled(names[1..])
  }

  function Spelled(c: Syntax): seq<Token> {
    match c
    case Num(digits) => [Number(digits)]
    case Text(text) => [Quoted(text)]
    case Path(names) => PathSpelled(names)
    case Apply(name, args) => [Ident(name), LParen] + ArgsSpelled(args) + [RParen]
    case Infix(op, lhs, rhs) => Spelled(lhs) + [Operator(op)] + Spelled(rhs)
    case Group(inner) => [LParen] + Spelled(inner) + [RParen]
  }

  function ArgsSpelled(args: seq<Syntax>): seq<Token> {
    if args == [] then []
    else if |args| == 1 then Spelled(args[0])
    else Spelled(args[0]) + [Comma] + ArgsSpelled(args[1..])
  }

  function Joined(names: seq<string>): string {
    if names == [] then "" else if |names| == 1 then names[0] else names[0] + "." + Joined(names[1..])
  }

  /** The level the left operand stands at: a comparison takes no comparison, the others repeat. */
  function LeftLevel(op: BinaryOp): nat { if Level(op) == COMPARISON then COMPARISON + 1 else Level(op) }

  /** `c` writes `e` where operators from `level` on may stand without parentheses. */
  ghost predicate Means(c: Syntax, e: Expr, level: nat) {
    match c
    case Num(digits) => e.I64? && ParseI64(digits) == Some(e.value)
    case Text(text) => e == Str(text)
    case Path(names) => names != [] && e == Column(Joined(names))
    case Apply(name, args) =>
      e.Call? && e.name == name && |e.args| == |args| && forall i :: 0 <= i < |args| ==> Means(args[i], e.args[i], 0)
    case Infix(op, lhs, rhs) =>
      && e.Binary? && e.op == op && Level(op) >= level
      && Means(lhs, e.lhs, LeftLevel(op)) && Means(rhs, e.rhs, Level(op) + 1)
    case Group(inner) => Means(inner, e, 0)
  }

  lemma MeansBelow(c: Syntax, e: Expr, high: nat, low: nat)
    requires Means(c, e, high) && low <= high
    ensures Means(c, e, low)
  {
  }

  lemma {:induction false} SpelledSome(c: Syntax, e: Expr, level: nat)
    requires Means(c, e, level)
    ensures |Spelled(c)| > 0
  {
    if c.Infix? {
      SpelledSome(c.lhs, e.lhs, LeftLevel(c.op));
    }
  }

  // ---------------------------------------------------------------- pieces of a token list

  ghost predicate At(ts: seq<Token>, pos: nat, piece: seq<Token>) {
    pos + |piece| <= |ts| && forall i :: pos <= i < pos + |piece| ==> ts[i] == piece[i - pos]
  }

  lemma AtSplit(ts: seq<Token>, pos: nat, a: seq<Token>, b: seq<Token>)
    requires At(ts, pos, a + b)
    ensures At(ts, pos, a) && At(ts, pos + |a|, b)
  {
    forall i | pos <= i < pos + |a| ensures ts[i] == a[i - pos] {
      assert (a + b)[i - pos] == a[i - pos];
    }
    forall i | pos + |a| <= i < pos + |a| + |b| ensures ts[i] == b[i - (pos + |a|)] {
      assert (a + b)[i - pos] == b[i - pos - |a|];
    }
  }

  lemma AtOne(ts: seq<Token>, pos: nat, t: Token)
    requires At(ts, pos, [t])
    ensures pos < |ts| && ts[pos] == t
  {
  }

  lemma AtInfix(ts: seq<Token>, pos: nat, a: seq<Token>, t: Token, b: seq<Token>)
    requires At(ts, pos, a + [t] + b)
    ensures At(ts, pos, a) && pos + |a| + 1 + |b| <= |ts| && ts[pos + |a|] == t && At(ts, pos + |a| + 1, b)
  {
    AtSplit(ts, pos, a + [t], b);
    AtSplit(ts, pos, a, [t]);
    AtOne(ts, pos + |a|, t);
  }

  // ---------------------------------------------------------------- steps of the parser

  /** A token that ends an expression of `level`: no operator of it, and nothing that would go on
      with a name. */
  predicate Ends(t: Token, level: nat) {
    t != LParen && t != Dot && (t.Operator? ==> Level(t.op) < level)
  }

  lemma ParseStep(ts: seq<Token>, pos: nat, level: nat, lhs: Expr, p: nat)
    requires Closed(ts) && pos < |ts| && level < PRIMARY && p < |ts| && Parse(ts, pos, level + 1) == Ok((lhs, p))
    ensures Parse(ts, pos, level) == Continue(ts, p, level, lhs)
  {
  }

  lemma ContinueStep(ts: seq<Token>, m: nat, level: nat, e: Expr, q: nat)
    requires Closed(ts) && level < PRIMARY && e.Binary? && Level(e.op) == level
    requires m + 1 < q < |ts| && ts[m] == Operator(e.op) && Parse(ts, m + 1, level + 1) == Ok((e.rhs, q))
    ensures Continue(ts, m, level, e.lhs) == if level == COMPARISON then Ok((e, q)) else Continue(ts, q, level, e)
  {
  }

  lemma PathStep(ts: seq<Token>, pos: nat, full: string, name: string)
    requires Closed(ts) && pos + 2 < |ts| && ts[pos] == Dot && ts[pos + 1] == Ident(name)
    ensures ParsePath(ts, pos, full) == ParsePath(ts, pos + 2, full + "." + name)
  {
  }

  lemma PathEnd(ts: seq<Token>, pos: nat, full: string)
    requires Closed(ts) && pos < |ts| && ts[pos] != Dot
    ensures ParsePath(ts, pos, full) == Ok((Column(full), pos))
  {
  }

  lemma UnitIsPath(ts: seq<Token>, pos: nat, name: string)
    requires Closed(ts) && pos + 1 < |ts| && ts[pos] == Ident(name) && ts[pos + 1] != LParen
    ensures ParseUnit(ts, pos) == ParsePath(ts, pos + 1, name)
  {
  }

  lemma ArgsStep(ts: seq<Token>, pos: nat, arg: Expr, p: nat)
    requires Closed(ts) && pos < p < |ts| && Parse(ts, pos, 0) == Ok((arg, p))
    ensures ts[p] != Comma ==> ParseArgs(ts, pos) == Ok(([arg], p))
    ensures ts[p] == Comma && ParseArgs(ts, p + 1).Ok? ==>
              ParseArgs(ts, pos) == Ok(([arg] + ParseArgs(ts, p + 1).value.0, ParseArgs(ts, p + 1).value.1))
  {
  }

  /** Nothing parses from a closing parenthesis. */
  lemma StartsUnit(ts: seq<Token>, pos: nat)
    requires Closed(ts) && pos < |ts| && Parse(ts, pos, 0).Ok?
    ensures ts[pos] != RParen
  {
    assert Parse(ts, pos, 1).Ok?;
    assert Parse(ts, pos, 2).Ok?;
    assert Parse(ts, pos, 3).Ok?;
    assert Parse(ts, pos, 4).Ok?;
    assert Parse(ts, pos, 5).Ok?;
  }

  lemma ArgsMore(args: seq<Expr>, ts: seq<Token>, pos: nat, m: nat, q: nat)
    requires Closed(ts) && pos < m && m + 1 < |ts| && |args| > 1 && ts[m] == Comma
    requires Parse(ts, pos, 0) == Ok((args[0], m)) && ParseArgs(ts, m + 1) == Ok((args[1..], q))
    ensures ParseArgs(ts, pos) == Ok((args, q)) && ts[pos] != RParen
  {
    ArgsStep(ts, pos, args[0], m);
    StartsUnit(ts, pos);
    assert args == [args[0]] + args[1..];
  }

  lemma ArgsOne(args: seq<Expr>, ts: seq<Token>, pos: nat, m: nat)
    requires Closed(ts) && pos < m < |ts| && |args| == 1 && ts[m] != Comma && Parse(ts, pos, 0) == Ok((args[0], m))
    ensures ParseArgs(ts, pos) == Ok((args, m)) && ts[pos] != RParen
  {
    ArgsStep(ts, pos, args[0], m);
    StartsUnit(ts, pos);
    assert args == [args[0]];
  }

  // ---------------------------------------------------------------- what is written is read

  /** `c` stands at `pos` and the token after it ends it at `level`. */
  ghost predicate Stands(c: Syntax, ts: seq<Token>, pos: nat, level: nat) {
    && Closed(ts) && pos < |ts| && level <= PRIMARY && At(ts, pos, Spelled(c))
    && pos + |Spelled(c)| < |ts| && Ends(ts[pos + |Spelled(c)|], level)
  }

  ghost predicate Read(c: Syntax, e: Expr, ts: seq<Token>, pos: nat, level: nat)
    requires Closed(ts) && pos < |ts| && level <= PRIMARY
  {
    Parse(ts, pos, level) == Ok((e, pos + |Spelled(c)|))
  }

  /** Wherever an expression is written, with or without parentheses, the parser reads it and stops
      behind it. */
  lemma {:induction false} WrittenIsRead(c: Syntax, e: Expr, ts: seq<Token>, pos: nat, level: nat)
    requires Stands(c, ts, pos, level) && Means(c, e, level)
    ensures Read(c, e, ts, pos, level)
    decreases c, 1, 2 * (PRIMARY - level)
  {
    if level == PRIMARY {
      UnitRead(c, e, ts, pos);
    } else {
      Reached(c, e, ts, pos, level);
    }
  }

  lemma {:induction false} Reached(c: Syntax, e: Expr, ts: seq<Token>, pos: nat, level: nat)
    requires level < PRIMARY && Stands(c, ts, pos, level + 1) && Means(c, e, level)
    ensures Parse(ts, pos, level) ==
            if c.Infix? && Level(c.op) == level == COMPARISON then Ok((e, pos + |Spelled(c)|))
            else Continue(ts, pos + |Spelled(c)|, level, e)
    decreases c, 1, 2 * (PRIMARY - level) - 1
  {
    if c.Infix? && Level(c.op) == level {
      InfixReached(c, e, ts, pos, level);
    } else {
      WrittenIsRead(c, e, ts, pos, level + 1);
      ParseStep(ts, pos, level, e, pos + |Spelled(c)|);
    }
  }

  lemma InfixStands(c: Syntax, e: Expr, ts: seq<Token>, pos: nat, level: nat)
    requires c.Infix? && Level(c.op) == level && Stands(c, ts, pos, level + 1) && Means(c, e, level)
    ensures Stands(c.lhs, ts, pos, level + 1)
    ensures var m := pos + |Spelled(c.lhs)|;
            && ts[m] == Operator(c.op) && Stands(c.rhs, ts, m + 1, level + 1)
            && m + 1 + |Spelled(c.rhs)| == pos + |Spelled(c)| && |Spelled(c.rhs)| > 0
  {
    AtInfix(ts, pos, Spelled(c.lhs), Operator(c.op), Spelled(c.rhs));
    SpelledSome(c.rhs, e.rhs, level + 1);
  }

  lemma {:induction false} InfixReached(c: Syntax, e: Expr, ts: seq<Token>, pos: nat, level: nat)
    requires level < PRIMARY && Stands(c, ts, pos, level + 1) && Means(c, e, level) && c.Infix? && Level(c.op) == level
    ensures Parse(ts, pos, level) ==
            if level == COMPARISON then Ok((e, pos + |Spelled(c)|)) else Continue(ts, pos + |Spelled(c)|, level, e)
    decreases c, 0
  {
    var m := pos + |Spelled(c.lhs)|;
    InfixStands(c, e, ts, pos, level);
    WrittenIsRead(c.rhs, e.rhs, ts, m + 1, level + 1);
    LeftReached(c, e, ts, pos, level);
    ContinueStep(ts, m, level, e, m + 1 + |Spelled(c.rhs)|);
  }

  /** The left operand of an operator of this level brings the parser to the operator. */
  lemma {:induction false} LeftReached(c: Syntax, e: Expr, ts: seq<Token>, pos: nat, level: nat)
    requires level < PRIMARY && c.Infix? && Level(c.op) == level && Means(c, e, level)
    requires Stands(c.lhs, ts, pos, level + 1)
    ensures Parse(ts, pos, level) == Continue(ts, pos + |Spelled(c.lhs)|, level, e.lhs)
    decreases c.lhs, 2
  {
    if level == COMPARISON {
      WrittenIsRead(c.lhs, e.lhs, ts, pos, level + 1);
      ParseStep(ts, pos, level, e.lhs, pos + |Spelled(c.lhs)|);
    } else {
      Reached(c.lhs, e.lhs, ts, pos, level);
    }
  }

  lemma {:induction false} UnitRead(c: Syntax, e: Expr, ts: seq<Token>, pos: nat)
    requires Stands(c, ts, pos, PRIMARY) && Means(c, e, PRIMARY)
    ensures Read(c, e, ts, pos, PRIMARY)
    decreases c, 0, 2, 0
  {
    match c
    case Num(digits) => AtOne(ts, pos, Number(digits));
    case Text(text) => AtOne(ts, pos, Quoted(text));
    case Path(names) =>
      PathUnit(names, ts, pos);
    case Apply(name, args) => ApplyRead(c, e, ts, pos);
    case Group(inner) => GroupRead(c, e, ts, pos);
    case Infix(_, _, _) =>
  }

  lemma AtGroup(ts: seq<Token>, pos: nat, a: seq<Token>)
    requires At(ts, pos, [LParen] + a + [RParen])
    ensures pos + |a| + 2 <= |ts| && ts[pos] == LParen && At(ts, pos + 1, a) && ts[pos + 1 + |a|] == RParen
  {
    AtSplit(ts, pos, [LParen] + a, [RParen]);
    AtSplit(ts, pos, [LParen], a);
    AtOne(ts, pos, LParen);
    AtOne(ts, pos + 1 + |a|, RParen);
  }

  lemma GroupStands(c: Syntax, ts: seq<Token>, pos: nat)
    requires c.Group? && Stands(c, ts, pos, PRIMARY)
    ensures ts[pos] == LParen && pos + 1 < |ts| && Stands(c.inner, ts, pos + 1, 0)
    ensures var p := pos + 1 + |Spelled(c.inner)|; ts[p] == RParen && p + 1 == pos + |Spelled(c)|
  {
    AtGroup(ts, pos, Spelled(c.inner));
  }

  lemma {:induction false} GroupRead(c: Syntax, e: Expr, ts: seq<Token>, pos: nat)
    requires Stands(c, ts, pos, PRIMARY) && Means(c, e, PRIMARY) && c.Group?
    ensures Read(c, e, ts, pos, PRIMARY)
    decreases c, 0, 1, 0
  {
    GroupStands(c, ts, pos);
    WrittenIsRead(c.inner, e, ts, pos + 1, 0);
    UnitIsGroup(ts, pos, e, pos + 1 + |Spelled(c.inner)|);
  }

  lemma UnitIsGroup(ts: seq<Token>, pos: nat, e: Expr, p: nat)
    requires Closed(ts) && pos + 1 < p < |ts| && ts[pos] == LParen && ts[p] == RParen && Parse(ts, pos + 1, 0) == Ok((e, p))
    ensures Parse(ts, pos, PRIMARY) == Ok((e, p + 1))
  {
  }

  // ---------------------------------------------------------------- paths

  lemma {:induction false} PathRead(names: seq<string>, ts: seq<Token>, pos: nat, full: string)
    requires names != [] && Closed(ts) && 0 < pos && At(ts, pos, PathSpelled(names))
    requires ts[pos - 1] == Dot
    requires pos + |PathSpelled(names)| < |ts| && ts[pos + |PathSpelled(names)|] != Dot
    ensures ParsePath(ts, pos - 1, full) == Ok((Column(full + "." + Joined(names)), pos + |PathSpelled(names)|))
  {
    PathHead(names, ts, pos);
    PathStep(ts, pos - 1, full, names[0]);
    if |names| == 1 {
      PathEnd(ts, pos + 1, full + "." + names[0]);
    } else {
      PathRead(names[1..], ts, pos + 2, full + "." + names[0]);
      Regroup(full, names[0], Joined(names[1..]));
    }
  }

  lemma Regroup(full: string, name: string, rest: string)
    ensures full + "." + name + "." + rest == full + "." + (name + "." + rest)
  {
  }

  lemma PathHead(names: seq<string>, ts: seq<Token>, pos: nat)
    requires names != [] && At(ts, pos, PathSpelled(names))
    ensures pos < |ts| && ts[pos] == Ident(names[0])
    ensures |names| == 1 ==> |PathSpelled(names)| == 1
    ensures |names| > 1 ==>
              && pos + 1 < |ts| && ts[pos + 1] == Dot && At(ts, pos + 2, PathSpelled(names[1..]))
              && |PathSpelled(names)| == 2 + |PathSpelled(names[1..])|
  {
    if |names| == 1 {
      AtOne(ts, pos, Ident(names[0]));
    } else {
      AtSplit(ts, pos, [Ident(names[0]), Dot], PathSpelled(names[1..]));
      assert ts[pos] == [Ident(names[0]), Dot][0] && ts[pos + 1] == [Ident(names[0]), Dot][1];
    }
  }

  lemma PathUnit(names: seq<string>, ts: seq<Token>, pos: nat)
    requires names != [] && Closed(ts) && At(ts, pos, PathSpelled(names)) && pos + |PathSpelled(names)| < |ts|
    requires ts[pos + |PathSpelled(names)|] != Dot && ts[pos + |PathSpelled(names)|] != LParen
    ensures Parse(ts, pos, PRIMARY) == Ok((Column(Joined(names)), pos + |PathSpelled(names)|))
  {
    PathHead(names, ts, pos);
    UnitIsPath(ts, pos, names[0]);
    if |names| == 1 {
      PathEnd(ts, pos + 1, names[0]);
    } else {
      PathRead(names[1..], ts, pos + 2, names[0]);
    }
  }

  // ---------------------------------------------------------------- calls

  lemma ApplyStands(c: Syntax, ts: seq<Token>, pos: nat)
    requires c.Apply? && Closed(ts) && At(ts, pos, Spelled(c)) && pos + |Spelled(c)| < |ts|
    ensures |Spelled(c)| == 3 + |ArgsSpelled(c.args)| && ts[pos] == Ident(c.name) && ts[pos + 1] == LParen
    ensures At(ts, pos + 2, ArgsSpelled(c.args)) && ts[pos + 2 + |ArgsSpelled(c.args)|] == RParen
  {
    var args := ArgsSpelled(c.args);
    assert Spelled(c) == [Ident(c.name)] + ([LParen] + (args + [RParen]));
    AtSplit(ts, pos, [Ident(c.name)], [LParen] + (args + [RParen]));
    AtSplit(ts, pos + 1, [LParen], args + [RParen]);
    AtSplit(ts, pos + 2, args, [RParen]);
    AtOne(ts, pos, Ident(c.name));
    AtOne(ts, pos + 1, LParen);
    AtOne(ts, pos + 2 + |args|, RParen);
  }

  lemma UnitIsCall(ts: seq<Token>, pos: nat, name: string)
    requires Closed(ts) && pos + 2 < |ts| && ts[pos] == Ident(name) && ts[pos + 1] == LParen
    ensures Parse(ts, pos, PRIMARY) == ParseCall(ts, pos + 2, name)
  {
  }

  lemma CallEnds(ts: seq<Token>, pos: nat, name: string, args: seq<Expr>, p: nat)
    requires Closed(ts) && pos < p < |ts| && ts[pos] != RParen && ParseArgs(ts, pos) == Ok((args, p)) && ts[p] == RParen
    ensures ParseCall(ts, pos, name) == Ok((Call(name, args), p + 1))
  {
  }

  ghost predicate AllMean(args: seq<Syntax>, es: seq<Expr>) {
    |args| == |es| && forall i :: 0 <= i < |args| ==> Means(args[i], es[i], 0)
  }

  ghost predicate Inside(c: Syntax, args: seq<Syntax>) { forall i :: 0 <= i < |args| ==> args[i] < c }

  /** The arguments stand at `pos`, closed by a parenthesis. */
  ghost predicate ArgsStand(args: seq<Syntax>, ts: seq<Token>, pos: nat) {
    && Closed(ts) && At(ts, pos, ArgsSpelled(args)) && pos + |ArgsSpelled(args)| < |ts|
    && ts[pos + |ArgsSpelled(args)|] == RParen
  }

  lemma {:induction false} ApplyRead(c: Syntax, e: Expr, ts: seq<Token>, pos: nat)
    requires Stands(c, ts, pos, PRIMARY) && Means(c, e, PRIMARY) && c.Apply?
    ensures Read(c, e, ts, pos, PRIMARY)
    decreases c, 0, 1, 0
  {
    ApplyStands(c, ts, pos);
    UnitIsCall(ts, pos, c.name);
    assert e == Call(c.name, e.args);
    if c.args != [] {
      ArgsAreRead(c, c.args, e.args, ts, pos + 2);
      CallEnds(ts, pos + 2, c.name, e.args, pos + 2 + |ArgsSpelled(c.args)|);
    }
  }

  lemma OneArgStands(args: seq<Syntax>, e: Expr, ts: seq<Token>, pos: nat)
    requires |args| == 1 && ArgsStand(args, ts, pos) && Means(args[0], e, 0)
    ensures Stands(args[0], ts, pos, 0) && pos < pos + |Spelled(args[0])| == pos + |ArgsSpelled(args)|
  {
    SpelledSome(args[0], e, 0);
  }

  lemma FirstArgStands(args: seq<Syntax>, e: Expr, ts: seq<Token>, pos: nat)
    requires |args| > 1 && ArgsStand(args, ts, pos) && Means(args[0], e, 0)
    ensures Stands(args[0], ts, pos, 0)
    ensures var m := pos + |Spelled(args[0])|;
            && pos < m && m + 1 < |ts| && ts[m] == Comma && ArgsStand(args[1..], ts, m + 1)
            && m + 1 + |ArgsSpelled(args[1..])| == pos + |ArgsSpelled(args)|
  {
    SpelledSome(args[0], e, 0);
    AtInfix(ts, pos, Spelled(args[0]), Comma, ArgsSpelled(args[1..]));
  }

  lemma RestMean(c: Syntax, args: seq<Syntax>, es: seq<Expr>)
    requires args != [] && AllMean(args, es) && Inside(c, args)
    ensures args[0] < c && Means(args[0], es[0], 0) && Inside(c, args[1..]) && AllMean(args[1..], es[1..])
  {
  }

  ghost predicate ArgsParsed(args: seq<Syntax>, es: seq<Expr>, ts: seq<Token>, pos: nat)
    requires Closed(ts) && pos < |ts|
  {
    |ArgsSpelled(args)| > 0 && ts[pos] != RParen && ParseArgs(ts, pos) == Ok((es, pos + |ArgsSpelled(args)|))
  }

  lemma OneParsed(args: seq<Syntax>, es: seq<Expr>, ts: seq<Token>, pos: nat)
    requires |args| == 1 == |es| && ArgsStand(args, ts, pos) && Means(args[0], es[0], 0)
    requires pos < |ts| && Read(args[0], es[0], ts, pos, 0)
    ensures ArgsParsed(args, es, ts, pos)
  {
    OneArgStands(args, es[0], ts, pos);
    ArgsOne(es, ts, pos, pos + |Spelled(args[0])|);
  }

  lemma MoreParsed(args: seq<Syntax>, es: seq<Expr>, ts: seq<Token>, pos: nat, m: nat)
    requires |args| == |es| > 1 && ArgsStand(args, ts, pos) && Means(args[0], es[0], 0)
    requires m == pos + |Spelled(args[0])| && pos < |ts| && m + 1 < |ts| && Read(args[0], es[0], ts, pos, 0)
    requires ArgsParsed(args[1..], es[1..], ts, m + 1)
    ensures ArgsParsed(args, es, ts, pos)
  {
    FirstArgStands(args, es[0], ts, pos);
    ArgsMore(es, ts, pos, m, pos + |ArgsSpelled(args)|);
  }

  lemma {:induction false} ArgsAreRead(c: Syntax, args: seq<Syntax>, es: seq<Expr>, ts: seq<Token>, pos: nat)
    requires args != [] && Inside(c, args) && AllMean(args, es) && ArgsStand(args, ts, pos) && pos < |ts|
    ensures ArgsParsed(args, es, ts, pos)
    decreases c, 0, 0, |args|, 1
  {
    RestMean(c, args, es);
    if |args| > 1 {
      FirstArgStands(args, es[0], ts, pos);
      WrittenIsRead(args[0], es[0], ts, pos, 0);
      MoreAreRead(c, args, es, ts, pos, pos + |Spelled(args[0])|);
    } else {
      OneArgStands(args, es[0], ts, pos);
      WrittenIsRead(args[0], es[0], ts, pos, 0);
      OneParsed(args, es, ts, pos);
    }
  }

  lemma {:induction false} MoreAreRead(c: Syntax, args: seq<Syntax>, es: seq<Expr>, ts: seq<Token>, pos: nat, m: nat)
    requires |args| == |es| > 1 && ArgsStand(args, ts, pos) && Means(args[0], es[0], 0)
    requires m == pos + |Spelled(args[0])| && pos < |ts| && m + 1 < |ts| && Read(args[0], es[0], ts, pos, 0)
    requires Inside(c, args[1..]) && AllMean(args[1..], es[1..]) && ArgsStand(args[1..], ts, m + 1)
    ensures ArgsParsed(args, es, ts, pos)
    decreases c, 0, 0, |args|, 0
  {
    ArgsAreRead(c, args[1..], es[1..], ts, m + 1);
    MoreParsed(args, es, ts, pos, m);
  }

  // ---------------------------------------------------------------- what is read was written

  /** `c` is written from `pos` up to `p`. */
  ghost predicate Between(c: Syntax, ts: seq<Token>, pos: nat, p: nat) {
    p == pos + |Spelled(c)| && At(ts, pos, Spelled(c))
  }

  lemma AtJoin(ts: seq<Token>, pos: nat, a: seq<Token>, b: seq<Token>)
    requires At(ts, pos, a) && At(ts, pos + |a|, b)
    ensures At(ts, pos, a + b)
  {
  }

  lemma AtJoinInfix(ts: seq<Token>, pos: nat, a: seq<Token>, t: Token, b: seq<Token>)
    requires At(ts, pos, a) && pos + |a| < |ts| && ts[pos + |a|] == t && At(ts, pos + |a| + 1, b)
    ensures At(ts, pos, a + [t] + b)
  {
    AtJoin(ts, pos, a, [t]);
    AtJoin(ts, pos, a + [t], b);
  }

  /** Whatever the parser reads is written there: the tokens it has taken are a way to write what it
      returns. */
  lemma {:induction false} ReadIsWritten(ts: seq<Token>, pos: nat, level: nat) returns (c: Syntax)
    requires Closed(ts) && pos < |ts| && level <= PRIMARY && Parse(ts, pos, level).Ok?
    ensures var (e, p) := Parse(ts, pos, level).value; Means(c, e, level) && Between(c, ts, pos, p)
    decreases |ts| - pos, 2 * (PRIMARY - level) + 1
  {
    if level == PRIMARY {
      c := UnitWritten(ts, pos);
    } else {
      var first := ReadIsWritten(ts, pos, level + 1);
      var (lhs, p) := Parse(ts, pos, level + 1).value;
      MeansBelow(first, lhs, level + 1, if level == COMPARISON then level + 1 else level);
      c := ContinueWritten(ts, pos, p, level, lhs, first);
    }
  }

  lemma {:induction false} ContinueWritten(ts: seq<Token>, pos: nat, p: nat, level: nat, lhs: Expr, first: Syntax)
    returns (c: Syntax)
    requires Closed(ts) && pos < p < |ts| && level < PRIMARY && Continue(ts, p, level, lhs).Ok?
    requires Means(first, lhs, if level == COMPARISON then level + 1 else level) && Between(first, ts, pos, p)
    ensures var (e, q) := Continue(ts, p, level, lhs).value; Means(c, e, level) && Between(c, ts, pos, q)
    decreases |ts| - p, 0
  {
    if ts[p].Operator? && Level(ts[p].op) == level {
      var op := ts[p].op;
      var second := ReadIsWritten(ts, p + 1, level + 1);
      var (rhs, q) := Parse(ts, p + 1, level + 1).value;
      c := Infix(op, first, second);
      InfixBetween(op, first, second, ts, pos, p, q);
      if level != COMPARISON {
        c := ContinueWritten(ts, pos, q, level, Binary(op, lhs, rhs), c);
      }
    } else {
      c := first;
      MeansBelow(c, lhs, if level == COMPARISON then level + 1 else level, level);
    }
  }

  lemma InfixBetween(op: BinaryOp, first: Syntax, second: Syntax, ts: seq<Token>, pos: nat, p: nat, q: nat)
    requires p < |ts| && ts[p] == Operator(op) && Between(first, ts, pos, p) && Between(second, ts, p + 1, q)
    ensures Between(Infix(op, first, second), ts, pos, q)
  {
    AtJoinInfix(ts, pos, Spelled(first), Operator(op), Spelled(second));
  }

  lemma {:induction false} UnitWritten(ts: seq<Token>, pos: nat) returns (c: Syntax)
    requires Closed(ts) && pos < |ts| && ParseUnit(ts, pos).Ok?
    ensures var (e, p) := ParseUnit(ts, pos).value; Means(c, e, PRIMARY) && Between(c, ts, pos, p)
    decreases |ts| - pos, 0
  {
    match ts[pos]
    case Number(digits) => c := Num(digits);
    case Quoted(text) => c := Text(text);
    case Ident(name) =>
      if ts[pos + 1] == LParen {
        c := CallWritten(ts, pos, name);
      } else {
        var names := PathWritten(ts, pos, name);
        JoinedIsDotted(names);
        c := Path(names);
      }
    case LParen =>
      var inner := ReadIsWritten(ts, pos + 1, 0);
      c := Group(inner);
      GroupBetween(inner, ts, pos, Parse(ts, pos + 1, 0).value.1);
  }

  lemma GroupBetween(inner: Syntax, ts: seq<Token>, pos: nat, p: nat)
    requires pos < p < |ts| && ts[pos] == LParen && Between(inner, ts, pos + 1, p) && ts[p] == RParen
    ensures Between(Group(inner), ts, pos, p + 1)
  {
    AtJoin(ts, pos, [LParen], Spelled(inner));
    AtJoin(ts, pos, [LParen] + Spelled(inner), [RParen]);
  }

  /** Each of the names with a dot before it. */
  function Dotted(names: seq<string>): string {
    if names == [] then "" else "." + names[0] + Dotted(names[1..])
  }

  lemma DottedHead(full: string, names: seq<string>)
    requires names != []
    ensures full + "." + names[0] + Dotted(names[1..]) == full + Dotted(names)
  {
  }

  lemma {:induction false} JoinedIsDotted(names: seq<string>)
    requires names != []
    ensures Joined(names) == names[0] + Dotted(names[1..])
  {
    if |names| > 1 {
      JoinedIsDotted(names[1..]);
    }
  }

  /** The segments of a path from the name at `pos` on; `full` is what has been read up to it. */
  lemma {:induction false} PathWritten(ts: seq<Token>, pos: nat, full: string) returns (names: seq<string>)
    requires Closed(ts) && pos + 1 < |ts| && ts[pos].Ident? && ParsePath(ts, pos + 1, full).Ok?
    ensures names != [] && names[0] == ts[pos].name
    ensures var (e, p) := ParsePath(ts, pos + 1, full).value;
            && p == pos + |PathSpelled(names)| && At(ts, pos, PathSpelled(names))
            && e == Column(full + Dotted(names[1..]))
    decreases |ts| - pos
  {
    if ts[pos + 1] == Dot {
      var rest := PathWritten(ts, pos + 2, full + "." + ts[pos + 2].name);
      names := [ts[pos].name] + rest;
      assert names[1..] == rest;
      AtJoin(ts, pos, [Ident(names[0]), Dot], PathSpelled(rest));
      DottedHead(full, rest);
    } else {
      names := [ts[pos].name];
    }
  }

  lemma {:induction false} CallWritten(ts: seq<Token>, pos: nat, name: string) returns (c: Syntax)
    requires Closed(ts) && pos + 2 < |ts| && ts[pos] == Ident(name) && ts[pos + 1] == LParen
    requires ParseCall(ts, pos + 2, name).Ok?
    ensures var (e, p) := ParseCall(ts, pos + 2, name).value; Means(c, e, PRIMARY) && Between(c, ts, pos, p)
    decreases |ts| - pos - 2, 14
  {
    var args := [];
    if ts[pos + 2] != RParen {
      args := ArgsWritten(ts, pos + 2);
    }
    c := Apply(name, args);
    assert |ArgsSpelled(args)| == ParseCall(ts, pos + 2, name).value.1 - 1 - (pos + 2);
    CallBetween(name, args, ts, pos);
  }

  lemma CallBetween(name: string, args: seq<Syntax>, ts: seq<Token>, pos: nat)
    requires pos + 2 + |ArgsSpelled(args)| < |ts| && ts[pos] == Ident(name) && ts[pos + 1] == LParen
    requires At(ts, pos + 2, ArgsSpelled(args)) && ts[pos + 2 + |ArgsSpelled(args)|] == RParen
    ensures Between(Apply(name, args), ts, pos, pos + 3 + |ArgsSpelled(args)|)
  {
    AtJoin(ts, pos, [Ident(name), LParen], ArgsSpelled(args));
    AtJoin(ts, pos, [Ident(name), LParen] + ArgsSpelled(args), [RParen]);
  }

  lemma {:induction false} ArgsWritten(ts: seq<Token>, pos: nat) returns (args: seq<Syntax>)
    requires Closed(ts) && pos < |ts| && ParseArgs(ts, pos).Ok?
    ensures args != []
    ensures var (es, p) := ParseArgs(ts, pos).value;
            AllMean(args, es) && p == pos + |ArgsSpelled(args)| && At(ts, pos, ArgsSpelled(args))
    decreases |ts| - pos, 12
  {
    var first := ReadIsWritten(ts, pos, 0);
    var (e, p) := Parse(ts, pos, 0).value;
    ArgsStep(ts, pos, e, p);
    args := [first];
    if ts[p] == Comma {
      var rest := ArgsWritten(ts, p + 1);
      args := [first] + rest;
      ArgsBetween(first, rest, ts, pos, p);
    }
  }

  lemma ArgsBetween(first: Syntax, rest: seq<Syntax>, ts: seq<Token>, pos: nat, p: nat)
    requires rest != [] && p < |ts| && Between(first, ts, pos, p) && ts[p] == Comma
    requires At(ts, p + 1, ArgsSpelled(rest))
    ensures At(ts, pos, ArgsSpelled([first] + rest))
    ensures |ArgsSpelled([first] + rest)| == p + 1 - pos + |ArgsSpelled(rest)|
  {
    assert ([first] + rest)[1..] == rest;
    AtJoinInfix(ts, pos, Spelled(first), Comma, ArgsSpelled(rest));
  }
}
