/** Join keys, their equality and order, and the joins as sequences of rows. */
module JoinModel {
  import opened Wrappers
  import opened Bytes
  import Lex

  datatype Value =
    | Null
    | Bool(truth: bool)
    | Int(i: I64)
    | UInt(u: U64)
    | Float(bits: U64)
    | Blob(bytes: seq<Byte>)
    | Timestamp(time: I64)

  type Row = seq<Value>

  datatype Ordering = Less | Equal | Greater

  // ---------------------------------------------------------------- keys

  /** SQL equality: a NULL equals nothing, nor do values of different kinds. */
  predicate ValueEq(a: Value, b: Value) {
    match (a, b)
    case (Bool(x), Bool(y)) => x == y
    case (Int(x), Int(y)) => x == y
    case (UInt(x), UInt(y)) => x == y
    case (Float(x), Float(y)) => x == y
    case (Blob(x), Blob(y)) => x == y
    case (Timestamp(x), Timestamp(y)) => x == y
    case _ => false
  }

  function KindTag(v: Value): nat {
    match v
    case Null => 0
    case Bool(_) => 1
    case Int(_) => 2
    case UInt(_) => 3
    case Float(_) => 4
    case Blob(_) => 5
    case Timestamp(_) => 6
  }

  function IntCmp(x: int, y: int): Ordering { if x < y then Less else if x == y then Equal else Greater }

  /** The integer `f64::total_cmp` compares: a set sign bit reverses the order of the rest. */
  function TotalKey(bits: U64): int {
    if bits < 0x8000_0000_0000_0000 then bits else -1 - (bits - 0x8000_0000_0000_0000)
  }

  function ValueCmp(a: Value, b: Value): Ordering {
    match (a, b)
    case (Bool(x), Bool(y)) => IntCmp(if x then 1 else 0, if y then 1 else 0)
    case (Int(x), Int(y)) => IntCmp(x, y)
    case (UInt(x), UInt(y)) => IntCmp(x, y)
    case (Float(x), Float(y)) => IntCmp(TotalKey(x), TotalKey(y))
    case (Blob(x), Blob(y)) => if Lex.Less(x, y) then Less else if x == y then Equal else Greater
    case (Timestamp(x), Timestamp(y)) => IntCmp(x, y)
    case _ => IntCmp(KindTag(a), KindTag(b))
  }

  /** The join key of a row, none when the column is missing or NULL. */
  function Key(row: Row, col: nat): Option<Value> {
    if col < |row| && row[col] != Null then Some(row[col]) else None
  }

  /** The order inputs of a merge join are sorted by, NULL and missing keys first. */
  predicate KeyLeq(a: Option<Value>, b: Option<Value>) {
    a.None? || (b.Some? && ValueCmp(a.value, b.value) != Greater)
  }

  predicate Sorted(rows: seq<Row>, col: nat) {
    forall i, j :: 0 <= i < j < |rows| ==> KeyLeq(Key(rows[i], col), Key(rows[j], col))
  }

  // ---------------------------------------------------------------- joins

  predicate Matches(l: Row, r: Row, leftCol: nat, rightCol: nat) {
    leftCol < |l| && rightCol < |r| && ValueEq(l[leftCol], r[rightCol])
  }

  /** The matches of one left row, in the order of the right side. */
  function RowMatches(l: Row, right: seq<Row>, leftCol: nat, rightCol: nat): seq<Row> {
    if right == [] then []
    else if Matches(l, right[0], leftCol, rightCol) then [l + right[0]] + RowMatches(l, right[1..], leftCol, rightCol)
    else RowMatches(l, right[1..], leftCol, rightCol)
  }

  /** The equality nested-loop join: every left row against every right row. */
  function EquiJoin(left: seq<Row>, right: seq<Row>, leftCol: nat, rightCol: nat): seq<Row> {
    if left == [] then []
    else RowMatches(left[0], right, leftCol, rightCol) + EquiJoin(left[1..], right, leftCol, rightCol)
  }

  /** The matches of one right row, in the order of the left side. */
  function ColMatches(left: seq<Row>, r: Row, leftCol: nat, rightCol: nat): seq<Row> {
    if left == [] then []
    else if Matches(left[0], r, leftCol, rightCol) then [left[0] + r] + ColMatches(left[1..], r, leftCol, rightCol)
    else ColMatches(left[1..], r, leftCol, rightCol)
  }

  /** The same join with the right side in the outer loop. */
  function EquiJoinByRight(left: seq<Row>, right: seq<Row>, leftCol: nat, rightCol: nat): seq<Row> {
    if right == [] then []
    else ColMatches(left, right[0], leftCol, rightCol) + EquiJoinByRight(left, right[1..], leftCol, rightCol)
  }
}
