/** Logical plans, predicate words and what a plan means as a sequence of rows. */
module PlanModel {
  import opened Wrappers

  /** A predicate is the sequence of its whitespace-separated words. */
  type Word = string
  type Predicate = seq<Word>
  type Conjunct = seq<Word>

  datatype Plan =
    | Scan(table: string, pushed: Option<Predicate>)
    | Filter(input: Plan, pred: Predicate)
    | Project(input: Plan, columns: seq<string>)
    | Join(left: Plan, right: Plan, condition: Predicate)
    | Sort(input: Plan, column: string)
    | Aggregate(input: Plan, groupKey: string, aggs: seq<string>)
    | Limit(input: Plan, count: nat)

  // ---------------------------------------------------------------- words

  function LowerChar(c: char): char {
    if 'A' <= c <= 'Z' then c - 'A' + 'a' else c
  }

  predicate EqIgnoreCase(w: Word, lower: Word) {
    |w| == |lower| && forall i :: 0 <= i < |w| ==> LowerChar(w[i]) == lower[i]
  }

  predicate IsAnd(w: Word) { EqIgnoreCase(w, "and") }

  predicate IsOr(w: Word) { EqIgnoreCase(w, "or") }

  predicate IsTokenChar(c: char) {
    'a' <= c <= 'z' || 'A' <= c <= 'Z' || '0' <= c <= '9' || c == '_' || c == '.'
  }

  /** The part of a token before its first dot. */
  function BeforeDot(token: string): string {
    if token == "" || token[0] == '.' then "" else [token[0]] + BeforeDot(token[1..])
  }

  /** The tokens of a word: maximal runs of token characters, `token` being the current run. */
  function Tokens(token: string, rest: string): seq<string>
    decreases rest
  {
    if rest == "" then (if token == "" then [] else [token])
    else if IsTokenChar(rest[0]) then Tokens(token + [rest[0]], rest[1..])
    else (if token == "" then [] else [token]) + Tokens("", rest[1..])
  }

  function ConjunctTokens(c: Conjunct): seq<string> {
    if c == [] then [] else Tokens("", c[0]) + ConjunctTokens(c[1..])
  }

  /** `c` names table `t`, qualified (`t.col`) or bare. */
  predicate Mentions(c: Conjunct, t: string) {
    exists token :: token in ConjunctTokens(c) && BeforeDot(token) == t
  }

  // ---------------------------------------------------------------- tables

  /** Table names in depth-first order, each once, after those already in `out`. */
  function TableNamesFrom(plan: Plan, out: seq<string>): seq<string> {
    match plan
    case Scan(table, _) => if table in out then out else out + [table]
    case Join(left, right, _) => TableNamesFrom(right, TableNamesFrom(left, out))
    case Filter(input, _) => TableNamesFrom(input, out)
    case Project(input, _) => TableNamesFrom(input, out)
    case Sort(input, _) => TableNamesFrom(input, out)
    case Aggregate(input, _, _) => TableNamesFrom(input, out)
    case Limit(input, _) => TableNamesFrom(input, out)
  }

  function TableNames(plan: Plan): seq<string> { TableNamesFrom(plan, []) }

  // ---------------------------------------------------------------- splitting

  function Run(run: seq<Word>): seq<seq<Word>> { if run == [] then [] else [run] }

  /** The nonempty runs of words between the `and`s, `run` being the current one. */
  function SplitAndFrom(run: seq<Word>, p: Predicate): seq<Conjunct>
    decreases p
  {
    if p == [] then Run(run)
    else if IsAnd(p[0]) then Run(run) + SplitAndFrom([], p[1..])
    else SplitAndFrom(run + [p[0]], p[1..])
  }

  function SplitAnd(p: Predicate): seq<Conjunct> { SplitAndFrom([], p) }

  /** The runs of words between the `or`s. */
  function SplitOrFrom(run: seq<Word>, p: Predicate): seq<Predicate>
    decreases p
  {
    if p == [] then [run]
    else if IsOr(p[0]) then [run] + SplitOrFrom([], p[1..])
    else SplitOrFrom(run + [p[0]], p[1..])
  }

  function JoinAnd(cs: seq<Conjunct>): Predicate {
    if cs == [] then [] else if |cs| == 1 then cs[0] else cs[0] + ["and"] + JoinAnd(cs[1..])
  }

  predicate OrFree(p: Predicate) { forall w :: w in p ==> !IsOr(w) }

  predicate OrFreePlan(plan: Plan) {
    match plan
    case Scan(_, _) => true
    case Filter(input, p) => OrFree(p) && OrFreePlan(input)
    case Join(left, right, _) => OrFreePlan(left) && OrFreePlan(right)
    case Project(input, _) => OrFreePlan(input)
    case Sort(input, _) => OrFreePlan(input)
    case Aggregate(input, _, _) => OrFreePlan(input)
    case Limit(input, _) => OrFreePlan(input)
  }

  // ---------------------------------------------------------------- meaning

  datatype Cell = Cell(table: string, column: string, value: int)
  type Row = seq<Cell>

  /** What the plan's opaque strings stand for. */
  datatype Semantics = Semantics(
    rows: (string, Option<Predicate>) -> seq<Row>,
    holds: (Conjunct, Row) -> bool,
    matches: (Predicate, Row, Row) -> bool,
    project: (seq<string>, seq<Row>) -> seq<Row>,
    sort: (string, seq<Row>) -> seq<Row>,
    aggregate: (string, seq<string>, seq<Row>) -> seq<Row>,
    limit: (nat, seq<Row>) -> seq<Row>)

  predicate AllHold(s: Semantics, cs: seq<Conjunct>, row: Row) {
    cs == [] || (s.holds(cs[0], row) && AllHold(s, cs[1..], row))
  }

  /** `or` binds looser than `and`: some disjunct has all its conjuncts true. */
  predicate Holds(s: Semantics, p: Predicate, row: Row) {
    exists d :: d in SplitOrFrom([], p) && AllHold(s, SplitAnd(d), row)
  }

  function FilterRows(s: Semantics, p: Predicate, rows: seq<Row>): seq<Row> {
    if rows == [] then []
    else if Holds(s, p, rows[0]) then [rows[0]] + FilterRows(s, p, rows[1..])
    else FilterRows(s, p, rows[1..])
  }

  function MatchRow(s: Semantics, condition: Predicate, l: Row, right: seq<Row>): seq<Row> {
    if right == [] then []
    else if s.matches(condition, l, right[0]) then [l + right[0]] + MatchRow(s, condition, l, right[1..])
    else MatchRow(s, condition, l, right[1..])
  }

  /** The nested-loop join: left rows outermost, each pair concatenated. */
  function JoinRows(s: Semantics, condition: Predicate, left: seq<Row>, right: seq<Row>): seq<Row> {
    if left == [] then []
    else MatchRow(s, condition, left[0], right) + JoinRows(s, condition, left[1..], right)
  }

  function Rows(s: Semantics, plan: Plan): seq<Row> {
    match plan
    case Scan(table, pushed) => s.rows(table, pushed)
    case Filter(input, p) => FilterRows(s, p, Rows(s, input))
    case Join(left, right, condition) => JoinRows(s, condition, Rows(s, left), Rows(s, right))
    case Project(input, columns) => s.project(columns, Rows(s, input))
    case Sort(input, column) => s.sort(column, Rows(s, input))
    case Aggregate(input, key, aggs) => s.aggregate(key, aggs, Rows(s, input))
    case Limit(input, count) => s.limit(count, Rows(s, input))
  }

  // ---------------------------------------------------------------- namespaces

  function CellsOf(row: Row, c: Conjunct): Row {
    if row == [] then []
    else if Mentions(c, row[0].table) then [row[0]] + CellsOf(row[1..], c)
    else CellsOf(row[1..], c)
  }

  ghost predicate RowWithin(row: Row, tables: seq<string>) {
    forall cell :: cell in row ==> cell.table in tables
  }

  ghost predicate Within(rows: seq<Row>, tables: seq<string>) {
    forall row :: row in rows ==> RowWithin(row, tables)
  }

  /** Conjuncts read only cells of tables they name; scans produce cells of their own table and
      the other operators stay within the tables of their input. */
  ghost predicate Namespaced(s: Semantics) {
    && (forall c, r1, r2 :: CellsOf(r1, c) == CellsOf(r2, c) ==> s.holds(c, r1) == s.holds(c, r2))
    && (forall t, p :: Within(s.rows(t, p), [t]))
    && (forall cols, rows, ts :: Within(rows, ts) ==> Within(s.project(cols, rows), ts))
    && (forall col, rows, ts :: Within(rows, ts) ==> Within(s.sort(col, rows), ts))
    && (forall k, aggs, rows, ts :: Within(rows, ts) ==> Within(s.aggregate(k, aggs, rows), ts))
    && (forall n, rows, ts :: Within(rows, ts) ==> Within(s.limit(n, rows), ts))
  }
}
