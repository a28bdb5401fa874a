/** The order of join keys in plain terms: what comes before what, and what a sorted input is. */
module ValueOrder {
  import opened Wrappers
  import opened Bytes
  import Lex
  import opened JoinModel

  // ---------------------------------------------------------------- byte strings

  /** A proper prefix, or smaller at the first byte where the two differ. */
  ghost predicate BytesBefore(x: seq<Byte>, y: seq<Byte>) {
    (|x| < |y| && x == y[..|x|]) || exists n: nat :: SmallerAt(x, y, n)
  }

  ghost predicate SmallerAt(x: seq<Byte>, y: seq<Byte>, n: nat) {
    n < |x| && n < |y| && x[..n] == y[..n] && x[n] < y[n]
  }

  lemma {:induction false} LessExact(x: seq<Byte>, y: seq<Byte>)
    ensures Lex.Less(x, y) <==> BytesBefore(x, y)
  {
    if x != [] && y != [] {
      LessExact(x[1..], y[1..]);
      if x[0] == y[0] {
        TailBefore(x, y);
      } else if x[0] < y[0] {
        assert SmallerAt(x, y, 0);
      } else {
        HeadDecides(x, y);
      }
    } else if y != [] {
      assert x == y[..|x|];
    }
  }

  /** A larger first byte puts a string behind. */
  lemma HeadDecides(x: seq<Byte>, y: seq<Byte>)
    requires x != [] && y != [] && y[0] < x[0]
    ensures !BytesBefore(x, y)
  {
    forall n: nat ensures !SmallerAt(x, y, n) {
      if 0 < n <= |x| && n <= |y| {
        assert x[..n][0] == x[0] && y[..n][0] == y[0];
      }
    }
    if |x| < |y| {
      assert y[..|x|][0] == y[0];
    }
  }

  /** An equal first byte leaves it to the rest. */
  lemma TailBefore(x: seq<Byte>, y: seq<Byte>)
    requires x != [] && y != [] && x[0] == y[0]
    ensures BytesBefore(x, y) <==> BytesBefore(x[1..], y[1..])
  {
    var a, b := x[1..], y[1..];
    if n: nat :| SmallerAt(x, y, n) {
      assert a[..n - 1] == x[..n][1..] && b[..n - 1] == y[..n][1..];
      assert SmallerAt(a, b, n - 1);
    }
    if n: nat :| SmallerAt(a, b, n) {
      assert x[..n + 1] == [x[0]] + a[..n] && y[..n + 1] == [y[0]] + b[..n];
      assert SmallerAt(x, y, n + 1);
    }
    if |x| < |y| {
      assert y[..|x|] == [y[0]] + b[..|a|] && x == [x[0]] + a;
      assert a == x[1..] && b[..|a|] == y[..|x|][1..];
    }
  }

  // ---------------------------------------------------------------- floating point

  const SIGN: nat := 0x8000_0000_0000_0000
  const HIDDEN: nat := 0x10_0000_0000_0000

  predicate Negative(bits: U64) { bits >= SIGN }

  /** The bits below the sign, exponent before fraction. */
  function Magnitude(bits: U64): nat { bits % SIGN }

  predicate FloatBefore(x: U64, y: U64) {
    if Negative(x) then !Negative(y) || Magnitude(y) < Magnitude(x)
    else !Negative(y) && Magnitude(x) < Magnitude(y)
  }

  predicate Finite(bits: U64) { Magnitude(bits) / HIDDEN < 0x7ff }

  function Power(e: nat): (p: nat)
    ensures p >= 1
  {
    if e == 0 then 1 else 2 * Power(e - 1)
  }

  /** The absolute value of a finite number in units of 2 to the -1074, subnormals included. */
  function Units(m: nat): nat {
    if m / HIDDEN == 0 then m else (HIDDEN + m % HIDDEN) * Power(m / HIDDEN - 1)
  }

  /** A finite number of the binary64 format of IEEE 754 in units of 2 to the -1074. */
  function Number(bits: U64): int
    requires Finite(bits)
  {
    if Negative(bits) then 0 - Units(Magnitude(bits)) else Units(Magnitude(bits))
  }

  lemma {:induction false} PowerGrows(a: nat, b: nat)
    requires a <= b
    ensures Power(a) <= Power(b)
  {
    if a < b {
      PowerGrows(a, b - 1);
    }
  }

  lemma TimesGrows(a: nat, b: nat, p: nat)
    requires a < b && p >= 1
    ensures a * p < b * p
  {
  }

  lemma TimesKeeps(a: nat, p: nat, q: nat)
    requires p <= q
    ensures a * p <= a * q
  {
  }

  /** A larger magnitude is a larger absolute value. */
  lemma UnitsGrow(m: nat, n: nat)
    requires m < n
    ensures Units(m) < Units(n)
  {
    var d, e := m / HIDDEN, n / HIDDEN;
    if e > 0 {
      var p := Power(e - 1);
      if d == e {
        TimesGrows(HIDDEN + m % HIDDEN, HIDDEN + n % HIDDEN, p);
      } else {
        TimesKeeps(HIDDEN, 1, p);
        TimesKeeps(n % HIDDEN, 0, p);
        assert Units(n) == HIDDEN * p + n % HIDDEN * p;
        if d > 0 {
          TimesGrows(HIDDEN + m % HIDDEN, 2 * HIDDEN, Power(d - 1));
          PowerGrows(d, e - 1);
          TimesKeeps(HIDDEN, Power(d), p);
        }
      }
    }
  }

  /** On finite numbers the order is the numeric one, with -0 below +0. */
  lemma FiniteOrder(x: U64, y: U64)
    requires Finite(x) && Finite(y)
    ensures ValueCmp(Float(x), Float(y)) == Less <==>
            Number(x) < Number(y) || (Number(x) == Number(y) && Negative(x) && !Negative(y))
  {
    CmpExact(Float(x), Float(y));
    if Magnitude(x) < Magnitude(y) {
      UnitsGrow(Magnitude(x), Magnitude(y));
    } else if Magnitude(y) < Magnitude(x) {
      UnitsGrow(Magnitude(y), Magnitude(x));
    }
  }

  // ---------------------------------------------------------------- values

  /** NULL, booleans, signed and unsigned integers, floats, bytes, timestamps, in this order. */
  predicate KindBefore(a: Value, b: Value) {
    match a
    case Null => !b.Null?
    case Bool(_) => !b.Null? && !b.Bool?
    case Int(_) => b.UInt? || b.Float? || b.Blob? || b.Timestamp?
    case UInt(_) => b.Float? || b.Blob? || b.Timestamp?
    case Float(_) => b.Blob? || b.Timestamp?
    case Blob(_) => b.Timestamp?
    case Timestamp(_) => false
  }

  ghost predicate Before(a: Value, b: Value) {
    || KindBefore(a, b)
    || (a.Bool? && b.Bool? && !a.truth && b.truth)
    || (a.Int? && b.Int? && a.i < b.i)
    || (a.UInt? && b.UInt? && a.u < b.u)
    || (a.Float? && b.Float? && FloatBefore(a.bits, b.bits))
    || (a.Blob? && b.Blob? && BytesBefore(a.bytes, b.bytes))
    || (a.Timestamp? && b.Timestamp? && a.time < b.time)
  }

  /** The comparison says Less of exactly the values that come before, and Equal of equal ones only. */
  lemma CmpExact(a: Value, b: Value)
    ensures ValueCmp(a, b) == Less <==> Before(a, b)
    ensures ValueCmp(a, b) == Greater <==> Before(b, a)
    ensures ValueCmp(a, b) == Equal <==> a == b
  {
    if a.Blob? && b.Blob? {
      LessExact(a.bytes, b.bytes);
      LessExact(b.bytes, a.bytes);
      Lex.LessTotal(a.bytes, b.bytes);
      Lex.LessIrreflexive(a.bytes);
      if Lex.Less(a.bytes, b.bytes) && Lex.Less(b.bytes, a.bytes) {
        Lex.LessTransitive(a.bytes, b.bytes, a.bytes);
      }
    }
  }

  // ---------------------------------------------------------------- sorted inputs

  /** Rows without a key in front, and no key before one that stands ahead of it. */
  ghost predicate Ascending(rows: seq<Row>, col: nat) {
    forall i, j :: 0 <= i < j < |rows| ==> InOrder(Key(rows[i], col), Key(rows[j], col))
  }

  ghost predicate InOrder(a: Option<Value>, b: Option<Value>) {
    a.Some? ==> b.Some? && !Before(b.value, a.value)
  }

  lemma SortedExact(rows: seq<Row>, col: nat)
    ensures Sorted(rows, col) <==> Ascending(rows, col)
  {
    forall i, j | 0 <= i < j < |rows|
      ensures KeyLeq(Key(rows[i], col), Key(rows[j], col)) <==> InOrder(Key(rows[i], col), Key(rows[j], col))
    {
      var a, b := Key(rows[i], col), Key(rows[j], col);
      if a.Some? && b.Some? {
        CmpExact(a.value, b.value);
      }
    }
  }
}
