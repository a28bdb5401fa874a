/** The recursive-descent parser object: a position that moves over the tokens. */
module CenqlParser {
  import opened Wrappers
  import opened CenqlModel
  import opened CenqlGrammar
  import opened CenqlRoundTrip

  type ExprResult = Result<Expr, ParseError>

  class Parser {
    const tokens: seq<Token>
    var pos: nat

    predicate Valid()
      reads this
    {
      Closed(tokens) && pos < |tokens|
    }

    constructor (tokens: seq<Token>)
      requires Closed(tokens)
      ensures Valid() && this.tokens == tokens && pos == 0
    {
      this.tokens := tokens;
      pos := 0;
    }

    /** The outcome is the one the grammar prescribes, and the position is behind what was read. */
    ghost predicate Did(r: ExprResult, spec: Parsed)
      reads this
    {
      Valid() && match spec case Ok((e, p)) => r == Ok(e) && pos == p case Err(err) => r == Err(err)
    }

    /** Steps over a token, but never over the last one. */
    method Advance() returns (t: Token)
      requires Valid()
      modifies this`pos
      ensures Valid() && t == tokens[old(pos)] && (t != Eof ==> pos == old(pos) + 1)
    {
      t := tokens[pos];
      if pos < |tokens| - 1 {
        pos := pos + 1;
      }
    }

    method Expect(t: Token, expected: string) returns (r: Result<(), ParseError>)
      requires Valid() && t != Eof
      modifies this`pos
      ensures Valid()
      ensures if tokens[old(pos)] == t then r.Ok? && pos == old(pos) + 1
              else r == Err(Unexpected(expected, tokens[pos])) && pos == old(pos)
    {
      if tokens[pos] == t {
        var _ := Advance();
        r := Ok(());
      } else {
        r := Err(Unexpected(expected, tokens[pos]));
      }
    }

    method ParseExpr() returns (r: ExprResult)
      requires Valid()
      modifies this`pos
      ensures old(pos) <= pos && Did(r, Parse(tokens, old(pos), 0))
      decreases |tokens| - pos, 12
    {
      r := ParseOr();
    }

    method ParseOr() returns (r: ExprResult)
      requires Valid()
      modifies this`pos
      ensures old(pos) <= pos && Did(r, Parse(tokens, old(pos), 0))
      decreases |tokens| - pos, 11
    {
      r := ParseAnd();
      while r.Ok? && tokens[pos] == Operator(Or)
        invariant Valid() && old(pos) <= pos && (r.Ok? ==> old(pos) < pos)
        invariant Goes(tokens, old(pos), 0, pos, r)
        decreases |tokens| - pos, if r.Ok? then 1 else 0
      {
        var lhs := r.value;
        var _ := Advance();
        r := ParseAnd();
        if r.Ok? {
          r := Ok(Binary(Or, lhs, r.value));
        }
      }
    }

    method ParseAnd() returns (r: ExprResult)
      requires Valid()
      modifies this`pos
      ensures old(pos) <= pos && Did(r, Parse(tokens, old(pos), 1))
      decreases |tokens| - pos, 9
    {
      r := ParseComparison();
      while r.Ok? && tokens[pos] == Operator(And)
        invariant Valid() && old(pos) <= pos && (r.Ok? ==> old(pos) < pos)
        invariant Goes(tokens, old(pos), 1, pos, r)
        decreases |tokens| - pos, if r.Ok? then 1 else 0
      {
        var lhs := r.value;
        var _ := Advance();
        r := ParseComparison();
        if r.Ok? {
          r := Ok(Binary(And, lhs, r.value));
        }
      }
    }

    method ParseComparison() returns (r: ExprResult)
      requires Valid()
      modifies this`pos
      ensures old(pos) <= pos && Did(r, Parse(tokens, old(pos), COMPARISON))
      decreases |tokens| - pos, 7
    {
      r := ParseAdditive();
      if r.Err? || !tokens[pos].Operator? || tokens[pos].op !in {Eq, Ne, Lt, Le, Gt, Ge} {
        return;
      }
      var lhs, op := r.value, tokens[pos].op;
      var _ := Advance();
      r := ParseAdditive();
      if r.Ok? {
        r := Ok(Binary(op, lhs, r.value));
      }
    }

    method ParseAdditive() returns (r: ExprResult)
      requires Valid()
      modifies this`pos
      ensures old(pos) <= pos && Did(r, Parse(tokens, old(pos), 3))
      decreases |tokens| - pos, 5
    {
      r := ParseMultiplicative();
      while r.Ok? && (tokens[pos] == Operator(Add) || tokens[pos] == Operator(Sub))
        invariant Valid() && old(pos) <= pos && (r.Ok? ==> old(pos) < pos)
        invariant Goes(tokens, old(pos), 3, pos, r)
        decreases |tokens| - pos, if r.Ok? then 1 else 0
      {
        var lhs, op := r.value, tokens[pos].op;
        var _ := Advance();
        r := ParseMultiplicative();
        if r.Ok? {
          r := Ok(Binary(op, lhs, r.value));
        }
      }
    }

    method ParseMultiplicative() returns (r: ExprResult)
      requires Valid()
      modifies this`pos
      ensures old(pos) <= pos && Did(r, Parse(tokens, old(pos), 4))
      decreases |tokens| - pos, 3
    {
      r := ParsePrimary();
      while r.Ok? && (tokens[pos] == Operator(Mul) || tokens[pos] == Operator(Div))
        invariant Valid() && old(pos) <= pos && (r.Ok? ==> old(pos) < pos)
        invariant Goes(tokens, old(pos), 4, pos, r)
        decreases |tokens| - pos, if r.Ok? then 1 else 0
      {
        var lhs, op := r.value, tokens[pos].op;
        var _ := Advance();
        r := ParsePrimary();
        if r.Ok? {
          r := Ok(Binary(op, lhs, r.value));
        }
      }
    }

    method ParsePrimary() returns (r: ExprResult)
      requires Valid()
      modifies this`pos
      ensures old(pos) <= pos && Did(r, Parse(tokens, old(pos), PRIMARY))
      decreases |tokens| - pos, 1
    {
      match tokens[pos]
      case Number(text) =>
        var _ := Advance();
        var v := ParseI64(text);
        r := if v.Some? then Ok(I64(v.value)) else Err(InvalidInteger(text));
      case Quoted(text) =>
        var _ := Advance();
        r := Ok(Str(text));
      case Ident(name) =>
        var _ := Advance();
        if tokens[pos] == LParen {
          var _ := Advance();
          r := ParseArguments(name);
        } else {
          r := ParseDotted(name);
        }
      case LParen =>
        var _ := Advance();
        r := ParseExpr();
        if r.Ok? {
          var close := Expect(RParen, "specific token");
          if close.Err? {
            r := Err(close.error);
          }
        }
      case got => r := Err(Unexpected("expression", got));
    }

    /** The arguments of a call and its closing parenthesis. */
    method ParseArguments(name: string) returns (r: ExprResult)
      requires Valid()
      modifies this`pos
      ensures old(pos) <= pos && Did(r, ParseCall(tokens, old(pos), name))
      decreases |tokens| - pos, 14
    {
      var args := ParseArgs();
      if args.Err? {
        return Err(args.error);
      }
      var close := Expect(RParen, "specific token");
      r := if close.Ok? then Ok(Call(name, args.value)) else Err(close.error);
    }

    /** Comma-separated expressions, none before a closing parenthesis. */
    method ParseArgs() returns (r: Result<seq<Expr>, ParseError>)
      requires Valid()
      modifies this`pos
      ensures Valid() && old(pos) <= pos
      ensures if tokens[old(pos)] == RParen then r == Ok([]) && pos == old(pos)
              else match CenqlModel.ParseArgs(tokens, old(pos))
                   case Ok((args, p)) => r == Ok(args) && pos == p
                   case Err(err) => r == Err(err)
      decreases |tokens| - pos, 13
    {
      var args: seq<Expr> := [];
      if tokens[pos] == RParen {
        return Ok(args);
      }
      ArgsBegin(tokens, pos);
      while true
        invariant Valid() && old(pos) <= pos && ArgsGo(tokens, old(pos), pos, args)
        decreases |tokens| - pos
      {
        ghost var start := pos;
        var arg := ParseExpr();
        if arg.Err? {
          ArgsFail(tokens, old(pos), start, args);
          return Err(arg.error);
        }
        if tokens[pos] != Comma {
          ArgsStop(tokens, old(pos), start, args);
          return Ok(args + [arg.value]);
        }
        ArgsGoOn(tokens, old(pos), start, args);
        args := args + [arg.value];
        var _ := Advance();
      }
    }

    /** The rest of a dotted column name. */
    method ParseDotted(name: string) returns (r: ExprResult)
      requires Valid()
      modifies this`pos
      ensures old(pos) <= pos && Did(r, ParsePath(tokens, old(pos), name))
    {
      var full := name;
      while tokens[pos] == Dot
        invariant Valid() && ParsePath(tokens, old(pos), name) == ParsePath(tokens, pos, full)
        decreases |tokens| - pos
      {
        var _ := Advance();
        if !tokens[pos].Ident? {
          return Err(Unexpected("identifier", tokens[pos]));
        }
        var next := Advance();
        full := full + "." + next.name;
      }
      r := Ok(Column(full));
    }
  }

  // ---------------------------------------------------------------- loops and the grammar

  /** Having come to `pos` with `r`, the level's loop still ends as the grammar says. */
  ghost predicate Goes(ts: seq<Token>, start: nat, level: nat, pos: nat, r: ExprResult)
    requires Closed(ts) && start < |ts| && level < PRIMARY && pos < |ts|
  {
    Parse(ts, start, level) == match r case Ok(lhs) => Continue(ts, pos, level, lhs) case Err(e) => Err(e)
  }

  /** The arguments from `start` on are those collected so far and those from `pos` on. */
  ghost predicate ArgsGo(ts: seq<Token>, start: nat, pos: nat, args: seq<Expr>)
    requires Closed(ts) && start < |ts| && pos < |ts|
  {
    CenqlModel.ParseArgs(ts, start) ==
      match CenqlModel.ParseArgs(ts, pos)
      case Ok((rest, p)) => Ok((args + rest, p))
      case Err(e) => Err(e)
  }

  lemma ArgsBegin(ts: seq<Token>, start: nat)
    requires Closed(ts) && start < |ts|
    ensures ArgsGo(ts, start, start, [])
  {
    var r := CenqlModel.ParseArgs(ts, start);
    if r.Ok? {
      assert [] + r.value.0 == r.value.0;
    }
  }

  lemma ArgsFail(ts: seq<Token>, start: nat, pos: nat, args: seq<Expr>)
    requires Closed(ts) && start < |ts| && pos < |ts| && ArgsGo(ts, start, pos, args) && Parse(ts, pos, 0).Err?
    ensures CenqlModel.ParseArgs(ts, start) == Err(Parse(ts, pos, 0).error)
  {
  }

  lemma ArgsStop(ts: seq<Token>, start: nat, pos: nat, args: seq<Expr>)
    requires Closed(ts) && start < |ts| && pos < |ts| && ArgsGo(ts, start, pos, args)
    requires Parse(ts, pos, 0).Ok? && ts[Parse(ts, pos, 0).value.1] != Comma
    ensures var (arg, p) := Parse(ts, pos, 0).value; CenqlModel.ParseArgs(ts, start) == Ok((args + [arg], p))
  {
  }

  lemma ArgsGoOn(ts: seq<Token>, start: nat, pos: nat, args: seq<Expr>)
    requires Closed(ts) && start < |ts| && pos < |ts| && ArgsGo(ts, start, pos, args)
    requires Parse(ts, pos, 0).Ok? && ts[Parse(ts, pos, 0).value.1] == Comma
    ensures var (arg, p) := Parse(ts, pos, 0).value; p + 1 < |ts| && ArgsGo(ts, start, p + 1, args + [arg])
  {
    var (arg, p) := Parse(ts, pos, 0).value;
    var more := CenqlModel.ParseArgs(ts, p + 1);
    if more.Ok? {
      assert args + ([arg] + more.value.0) == args + [arg] + more.value.0;
    }
  }

  // ---------------------------------------------------------------- reading a printed predicate

  /** A fresh parser over the printed tokens gives the tree back, all tokens used, exactly when the
      tree is canonical. */
  method ReadBack(e: Expr) returns (r: ExprResult, used: nat)
    ensures r == Ok(e) && used == |Printed(e)| <==> Canonical(e, 0)
  {
    var p := new Parser(Printed(e) + [Eof]);
    r := p.ParseExpr();
    used := p.pos;
    RoundTrip(e);
  }

  /** Over any token list, a fresh parser comes to its end with a tree exactly if the list is a way to
      write that tree. */
  method ReadAll(tokens: seq<Token>) returns (r: ExprResult, used: nat)
    requires Closed(tokens)
    ensures forall e :: (r == Ok(e) && used == |tokens| - 1) <==> Writes(tokens, e)
  {
    var p := new Parser(tokens);
    r := p.ParseExpr();
    used := p.pos;
    forall e
      ensures (r == Ok(e) && used == |tokens| - 1) <==> Writes(tokens, e)
    {
      GrammarExact(tokens, e);
    }
  }
}
