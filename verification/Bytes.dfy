/** Bytes and little-endian integers, as Rust's `to_le_bytes`/`from_le_bytes`. */
module Bytes {

  type Byte = x: int | 0 <= x < 256

  const U32_RANGE: nat := 0x1_0000_0000
  const U64_RANGE: nat := 0x1_0000_0000_0000_0000

  type U64 = x: int | 0 <= x < U64_RANGE
  type I64 = x: int | -0x8000_0000_0000_0000 <= x < 0x8000_0000_0000_0000

  /** The low `n` bytes of `x`. */
  function LE(x: nat, n: nat): (s: seq<Byte>)
    ensures |s| == n
  {
    if n == 0 then [] else [x % 256] + LE(x / 256, n - 1)
  }

  /** `(x as u32).to_le_bytes()`: the cast keeps the low 32 bits. */
  function U32Bytes(x: nat): (s: seq<Byte>)
    ensures |s| == 4
  {
    LE(x, 4)
  }

  function U64Bytes(x: U64): (s: seq<Byte>)
    ensures |s| == 8
  {
    U32Bytes(x) + U32Bytes(x / U32_RANGE)
  }

  /** `u32::from_le_bytes` of the four bytes at `off`. */
  function U32At(bytes: seq<Byte>, off: nat): (x: nat)
    requires off + 4 <= |bytes|
    ensures x < U32_RANGE
  {
    var b0: int, b1: int, b2: int, b3: int := bytes[off], bytes[off + 1], bytes[off + 2], bytes[off + 3];
    b0 + 0x100 * b1 + 0x1_0000 * b2 + 0x100_0000 * b3
  }

  function U64At(bytes: seq<Byte>, off: nat): U64
    requires off + 8 <= |bytes|
  {
    U32At(bytes, off) + U32_RANGE * U32At(bytes, off + 4)
  }

  /** Two's complement of an `i64`. */
  function I64Bits(x: I64): U64 {
    if x < 0 then x + U64_RANGE else x
  }

  function BitsI64(u: U64): I64 {
    if u >= 0x8000_0000_0000_0000 then u - U64_RANGE else u
  }

  /** A u32 cast before `to_le_bytes` changes nothing: the bytes are cut off anyway. */
  lemma TruncatedBytes(x: nat)
    ensures U32Bytes(x % U32_RANGE) == U32Bytes(x)
  {
    var r := x % U32_RANGE;
    U32BytesAre(x);
    U32BytesAre(r);
    ModSplit(x, 0x100_0000);
    ModSplit(x / 256, 0x1_0000);
    ModSplit(x / 256 / 256, 0x100);
  }

  /** Taking the low byte commutes with cutting off the high ones. */
  lemma ModSplit(x: nat, m: nat)
    requires m > 0
    ensures x % (256 * m) % 256 == x % 256
    ensures x % (256 * m) / 256 == x / 256 % m
  {
    var q, r := x / 256, x % 256;
    var a, b := q / m, q % m;
    assert q == a * m + b;
    assert x == a * (256 * m) + (256 * b + r);
    DivModUnique(x, 256 * m, a, 256 * b + r);
  }

  lemma DivModUnique(x: nat, m: nat, a: nat, r: nat)
    requires x == a * m + r && r < m
    ensures x % m == r && x / m == a
  {
    var q := x / m;
    assert x == q * m + x % m;
    if q < a {
      NextMultiple(q, a, m);
    } else if a < q {
      NextMultiple(a, q, m);
    }
  }

  lemma NextMultiple(a: int, b: int, m: nat)
    requires a < b
    ensures a * m + m <= b * m
  {
    var d := b - a - 1;
    assert b * m == a * m + m + d * m;
    assert d * m >= 0;
  }

  lemma U32BytesAre(x: nat)
    ensures var a, b, c := x / 256, x / 256 / 256, x / 256 / 256 / 256;
            U32Bytes(x) == [x % 256, a % 256, b % 256, c % 256]
  {
    var a, b, c := x / 256, x / 256 / 256, x / 256 / 256 / 256;
    assert LE(c, 1) == [c % 256];
    assert LE(b, 2) == [b % 256] + LE(c, 1);
    assert LE(a, 3) == [a % 256] + LE(b, 2);
  }

  // ---------------------------------------------------------------- placement

  /** `s` stands in `bytes` at `off`. */
  ghost predicate Placed(bytes: seq<Byte>, off: nat, s: seq<Byte>) {
    off + |s| <= |bytes| && forall i :: 0 <= i < |s| ==> bytes[off + i] == s[i]
  }

  lemma PlacedSlice(bytes: seq<Byte>, off: nat, s: seq<Byte>)
    requires off + |s| <= |bytes|
    ensures Placed(bytes, off, s) <==> bytes[off..off + |s|] == s
  {
    if bytes[off..off + |s|] == s {
      forall i | 0 <= i < |s| ensures bytes[off + i] == s[i] {
        assert bytes[off..off + |s|][i] == s[i];
      }
    }
  }

  lemma PlacedSplit(bytes: seq<Byte>, off: nat, a: seq<Byte>, b: seq<Byte>)
    requires Placed(bytes, off, a + b)
    ensures Placed(bytes, off, a) && Placed(bytes, off + |a|, b)
  {
    forall i | 0 <= i < |a| ensures bytes[off + i] == a[i] {
      assert (a + b)[i] == a[i];
    }
    forall i | 0 <= i < |b| ensures bytes[off + |a| + i] == b[i] {
      assert (a + b)[|a| + i] == b[i];
    }
  }

  lemma PlacedWithin(bytes: seq<Byte>, off: nat, outer: seq<Byte>, k: nat, inner: seq<Byte>)
    requires Placed(bytes, off, outer) && Placed(outer, k, inner)
    ensures Placed(bytes, off + k, inner)
  {
    forall i | 0 <= i < |inner| ensures bytes[off + k + i] == inner[i] {
      assert outer[k + i] == inner[i];
    }
  }

  lemma PlacedSplit3(bytes: seq<Byte>, off: nat, a: seq<Byte>, b: seq<Byte>, c: seq<Byte>)
    requires Placed(bytes, off, a + b + c)
    ensures Placed(bytes, off, a) && Placed(bytes, off + |a|, b) && Placed(bytes, off + |a| + |b|, c)
  {
    PlacedSplit(bytes, off, a + b, c);
    PlacedSplit(bytes, off, a, b);
  }

  lemma ReadU32(bytes: seq<Byte>, off: nat, x: nat)
    requires Placed(bytes, off, U32Bytes(x)) && x < U32_RANGE
    ensures U32At(bytes, off) == x
  {
    var s := U32Bytes(x);
    assert bytes[off + 0] == s[0] && bytes[off + 1] == s[1] && bytes[off + 2] == s[2] && bytes[off + 3] == s[3];
    U32BytesAre(x);
  }

  lemma ReadU64(bytes: seq<Byte>, off: nat, x: U64)
    requires Placed(bytes, off, U64Bytes(x))
    ensures U64At(bytes, off) == x
  {
    PlacedSplit(bytes, off, U32Bytes(x), U32Bytes(x / U32_RANGE));
    TruncatedBytes(x);
    ReadU32(bytes, off, x % U32_RANGE);
    ReadU32(bytes, off + 4, x / U32_RANGE);
  }
}
