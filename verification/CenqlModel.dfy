/** CenQL expressions, the tokens of their printed form, and the expression grammar as the parser
    reads it. */
module CenqlModel {
  import opened Wrappers

  datatype BinaryOp = Eq | Ne | Lt | Le | Gt | Ge | And | Or | Add | Sub | Mul | Div

  datatype Expr =
    | Column(path: string)
    | I64(value: int)
    | Str(text: string)
    | Bool(truth: bool)
    | Binary(op: BinaryOp, lhs: Expr, rhs: Expr)
    | Call(name: string, args: seq<Expr>)

  datatype Token =
    | Ident(name: string)
    | Number(digits: string)
    | Quoted(text: string)
    | Operator(op: BinaryOp)
    | LParen
    | RParen
    | Comma
    | Dot
    | OtherToken
    | Eof

  datatype ParseError = Unexpected(expected: string, got: Token) | InvalidInteger(text: string)

  const I64_RANGE: nat := 0x8000_0000_0000_0000

  // ---------------------------------------------------------------- integer literals

  function DigitChar(d: nat): char
    requires d < 10
  {
    '0' + d as char
  }

  function Decimal(v: nat): string {
    if v < 10 then [DigitChar(v)] else Decimal(v / 10) + [DigitChar(v % 10)]
  }

  /** The number a string of digits stands for. */
  function DigitsValue(text: string): Option<nat> {
    if text == "" then Some(0)
    else
      var c := text[|text| - 1];
      match DigitsValue(text[..|text| - 1])
      case None => None
      case Some(v) => if '0' <= c <= '9' then Some(10 * v + (c as int - '0' as int)) else None
  }

  /** `str::parse::<i64>` on the text of a number token. */
  function ParseI64(text: string): Option<int> {
    if text == "" then None
    else
      match DigitsValue(text)
      case None => None
      case Some(v) => if v < I64_RANGE then Some(v) else None
  }

  // ---------------------------------------------------------------- printing

  function FirstDot(s: string): (i: nat)
    ensures i <= |s| && (i < |s| ==> s[i] == '.') && '.' !in s[..i]
  {
    if s == "" || s[0] == '.' then 0
    else
      var i := FirstDot(s[1..]);
      assert s[..1 + i] == [s[0]] + s[1..][..i];
      1 + i
  }

  /** A dotted name is lexed as identifiers with dots between them. */
  function PathTokens(s: string): seq<Token> {
    var i := FirstDot(s);
    if i == |s| then [Ident(s)] else [Ident(s[..i]), Dot] + PathTokens(s[i + 1..])
  }

  /** The tokens of `expr_to_predicate(e)`. */
  function Printed(e: Expr): seq<Token> {
    match e
    case Column(path) => PathTokens(path)
    case I64(v) => if v >= 0 then [Number(Decimal(v))] else [Operator(Sub), Number(Decimal(-v))]
    case Str(s) => [Quoted(s)]
    case Bool(b) => [Ident(if b then "true" else "false")]
    case Binary(op, lhs, rhs) => Printed(lhs) + [Operator(op)] + Printed(rhs)
    case Call(name, args) => PathTokens(name) + [LParen] + PrintedArgs(args) + [RParen]
  }

  function PrintedArgs(args: seq<Expr>): seq<Token> {
    if args == [] then []
    else if |args| == 1 then Printed(args[0])
    else Printed(args[0]) + [Comma] + PrintedArgs(args[1..])
  }

  // ---------------------------------------------------------------- the grammar

  /** How tightly an operator binds; the parser has one function for each level. */
  function Level(op: BinaryOp): nat {
    match op
    case Or => 0
    case And => 1
    case Add | Sub => 3
    case Mul | Div => 4
    case _ => 2
  }

  const COMPARISON: nat := 2
  const PRIMARY: nat := 5

  /** The tokenizer closes every token list with an end marker. */
  predicate Closed(ts: seq<Token>) { ts != [] && ts[|ts| - 1] == Eof }

  type Parsed = Result<(Expr, nat), ParseError>

  predicate Moves(ts: seq<Token>, pos: nat, r: Parsed) { r.Ok? ==> pos < r.value.1 < |ts| }

  /** What the function for `level` parses from `pos` on. */
  function Parse(ts: seq<Token>, pos: nat, level: nat): (r: Parsed)
    requires Closed(ts) && pos < |ts| && level <= PRIMARY
    ensures Moves(ts, pos, r)
    decreases |ts| - pos, 2 * (PRIMARY - level) + 1
  {
    if level == PRIMARY then ParseUnit(ts, pos)
    else
      match Parse(ts, pos, level + 1)
      case Err(e) => Err(e)
      case Ok((lhs, p)) => Continue(ts, p, level, lhs)
  }

  /** The loop of a level: it takes operators of that level, comparisons only once. */
  function Continue(ts: seq<Token>, pos: nat, level: nat, lhs: Expr): (r: Parsed)
    requires Closed(ts) && pos < |ts| && level < PRIMARY
    ensures r.Ok? ==> pos <= r.value.1 < |ts|
    decreases |ts| - pos, 0
  {
    if !(ts[pos].Operator? && Level(ts[pos].op) == level) then Ok((lhs, pos))
    else
      match Parse(ts, pos + 1, level + 1)
      case Err(e) => Err(e)
      case Ok((rhs, p)) =>
        var e := Binary(ts[pos].op, lhs, rhs);
        if level == COMPARISON then Ok((e, p)) else Continue(ts, p, level, e)
  }

  function ParseUnit(ts: seq<Token>, pos: nat): (r: Parsed)
    requires Closed(ts) && pos < |ts|
    ensures Moves(ts, pos, r)
    decreases |ts| - pos, 0
  {
    match ts[pos]
    case Number(text) =>
      (match ParseI64(text)
       case Some(v) => Ok((I64(v), pos + 1))
       case None => Err(InvalidInteger(text)))
    case Quoted(text) => Ok((Str(text), pos + 1))
    case Ident(name) =>
      if ts[pos + 1] == LParen then ParseCall(ts, pos + 2, name) else ParsePath(ts, pos + 1, name)
    case LParen =>
      (match Parse(ts, pos + 1, 0)
       case Err(e) => Err(e)
       case Ok((e, p)) => if ts[p] == RParen then Ok((e, p + 1)) else Err(Unexpected("specific token", ts[p])))
    case got => Err(Unexpected("expression", got))
  }

  function ParsePath(ts: seq<Token>, pos: nat, full: string): (r: Parsed)
    requires Closed(ts) && pos < |ts|
    ensures r.Ok? ==> pos <= r.value.1 < |ts|
    decreases |ts| - pos, 0
  {
    if ts[pos] != Dot then Ok((Column(full), pos))
    else if ts[pos + 1].Ident? then ParsePath(ts, pos + 2, full + "." + ts[pos + 1].name)
    else Err(Unexpected("identifier", ts[pos + 1]))
  }

  function ParseCall(ts: seq<Token>, pos: nat, name: string): (r: Parsed)
    requires Closed(ts) && pos < |ts|
    ensures Moves(ts, pos, r)
    decreases |ts| - pos, 13
  {
    if ts[pos] == RParen then Ok((Call(name, []), pos + 1))
    else
      match ParseArgs(ts, pos)
      case Err(e) => Err(e)
      case Ok((args, p)) =>
        if ts[p] == RParen then Ok((Call(name, args), p + 1)) else Err(Unexpected("specific token", ts[p]))
  }

  /** One argument and then more, as long as commas follow. */
  function ParseArgs(ts: seq<Token>, pos: nat): (r: Result<(seq<Expr>, nat), ParseError>)
    requires Closed(ts) && pos < |ts|
    ensures r.Ok? ==> pos < r.value.1 < |ts| && r.value.0 != []
    decreases |ts| - pos, 12
  {
    match Parse(ts, pos, 0)
    case Err(e) => Err(e)
    case Ok((arg, p)) =>
      if ts[p] != Comma then Ok(([arg], p))
      else
        match ParseArgs(ts, p + 1)
        case Err(e) => Err(e)
        case Ok((rest, q)) => Ok(([arg] + rest, q))
  }

  // ---------------------------------------------------------------- canonical trees

  /** The tree needs no parentheses at `level`: operators nest to the left, comparisons do not
      chain, and every leaf prints as the literal or name it is. */
  predicate Canonical(e: Expr, level: nat) {
    match e
    case Column(_) => true
    case I64(v) => 0 <= v < I64_RANGE
    case Str(_) => true
    case Bool(_) => false
    case Binary(op, lhs, rhs) =>
      && Level(op) >= level
      && Canonical(lhs, if Level(op) == COMPARISON then COMPARISON + 1 else Level(op))
      && Canonical(rhs, Level(op) + 1)
    case Call(name, args) => '.' !in name && forall i :: 0 <= i < |args| ==> Canonical(args[i], 0)
  }
}
