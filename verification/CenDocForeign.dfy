/** What any bytes decode to, whoever wrote them. */
module CenDocForeign {
  import opened Wrappers
  import opened Bytes
  import opened CenDocFormat

  /** The pool starts inside the bytes, and the string stands there in full behind its length. */
  ghost predicate TextAt(bytes: seq<Byte>, poolOff: nat, id: nat, s: Text) {
    poolOff < |bytes| && |s| < U32_RANGE && Placed(bytes, poolOff + id, U32Bytes(|s|) + s)
  }

  /** The bytes at `off` are a whole value: every byte, offset and string it consists of is there. Kinds
      the format does not have mean NULL, and any byte but 0 is true. */
  ghost predicate Means(bytes: seq<Byte>, poolOff: nat, off: nat, v: DocValue)
    decreases v, 1
  {
    && off < |bytes|
    && match v
       case Null => bytes[off] == 0 || bytes[off] > 7
       case Bool(b) => bytes[off] == 1 && off + 2 <= |bytes| && (b <==> bytes[off + 1] != 0)
       case Int(i) => bytes[off] == 2 && Placed(bytes, off + 1, U64Bytes(I64Bits(i)))
       case Float(bits) => bytes[off] == 3 && Placed(bytes, off + 1, U64Bytes(bits))
       case Str(s) =>
         bytes[off] == 4 && off + 5 <= |bytes| && TextAt(bytes, poolOff, U32At(bytes, off + 1), s)
       case Blob(data) =>
         bytes[off] == 5 && |data| < U32_RANGE && Placed(bytes, off + 1, U32Bytes(|data|) + data)
       case Object(fields) =>
         bytes[off] == 6 && off + 5 <= |bytes| && U32At(bytes, off + 1) == |fields| &&
         MeansFields(bytes, poolOff, off + 5, fields)
       case Array(items) =>
         bytes[off] == 7 && off + 5 <= |bytes| && U32At(bytes, off + 1) == |items| &&
         MeansItems(bytes, poolOff, off + 5, items)
  }

  ghost predicate MeansFields(bytes: seq<Byte>, poolOff: nat, entry: nat, fields: seq<Field>)
    decreases fields, 0
  {
    fields == [] ||
    (MeansField(bytes, poolOff, entry, fields[0]) && MeansFields(bytes, poolOff, entry + 8, fields[1..]))
  }

  ghost predicate MeansField(bytes: seq<Byte>, poolOff: nat, entry: nat, field: Field)
    decreases field, 0
  {
    && entry + 8 <= |bytes|
    && TextAt(bytes, poolOff, U32At(bytes, entry), field.name)
    && Means(bytes, poolOff, U32At(bytes, entry + 4), field.value)
  }

  ghost predicate MeansItems(bytes: seq<Byte>, poolOff: nat, entry: nat, items: seq<DocValue>)
    decreases items, 0
  {
    items == [] ||
    (&& entry + 4 <= |bytes|
     && Means(bytes, poolOff, U32At(bytes, entry), items[0])
     && MeansItems(bytes, poolOff, entry + 4, items[1..]))
  }

  // ---------------------------------------------------------------- numbers and strings

  lemma U32Placed(bytes: seq<Byte>, off: nat, x: nat)
    requires off + 4 <= |bytes| && x < U32_RANGE
    ensures Placed(bytes, off, U32Bytes(x)) <==> U32At(bytes, off) == x
  {
    if Placed(bytes, off, U32Bytes(x)) {
      ReadU32(bytes, off, x);
    }
    if U32At(bytes, off) == x {
      BytesAre(bytes[off], bytes[off + 1], bytes[off + 2], bytes[off + 3]);
    }
  }

  lemma BytesAre(b0: int, b1: int, b2: int, b3: int)
    requires 0 <= b0 < 256 && 0 <= b1 < 256 && 0 <= b2 < 256 && 0 <= b3 < 256
    ensures U32Bytes(b0 + 0x100 * b1 + 0x1_0000 * b2 + 0x100_0000 * b3) == [b0, b1, b2, b3]
  {
    var c := b3;
    var b := b2 + 0x100 * c;
    var a := b1 + 0x100 * b;
    var x := b0 + 0x100 * a;
    U32BytesAre(x);
    assert x / 256 == a && a / 256 == b && b / 256 == c;
    assert x == b0 + 0x100 * b1 + 0x1_0000 * b2 + 0x100_0000 * b3;
  }

  lemma U64Placed(bytes: seq<Byte>, off: nat, x: U64)
    requires off + 8 <= |bytes|
    ensures Placed(bytes, off, U64Bytes(x)) <==> U64At(bytes, off) == x
  {
    if Placed(bytes, off, U64Bytes(x)) {
      ReadU64(bytes, off, x);
    }
    if U64At(bytes, off) == x {
      var low, high := U32At(bytes, off), U32At(bytes, off + 4);
      assert x % U32_RANGE == low && x / U32_RANGE == high;
      TruncatedBytes(x);
      U32Placed(bytes, off, low);
      U32Placed(bytes, off + 4, high);
      Joined(bytes, off, U32Bytes(x), U32Bytes(x / U32_RANGE));
    }
  }

  lemma Joined(bytes: seq<Byte>, off: nat, a: seq<Byte>, b: seq<Byte>)
    requires Placed(bytes, off, a) && Placed(bytes, off + |a|, b)
    ensures Placed(bytes, off, a + b)
  {
  }

  /** A length of four bytes, and as many bytes behind it. */
  lemma SizedPlaced(bytes: seq<Byte>, off: nat, s: seq<Byte>)
    requires |s| < U32_RANGE
    ensures Placed(bytes, off, U32Bytes(|s|) + s) <==>
            off + 4 + |s| <= |bytes| && U32At(bytes, off) == |s| && bytes[off + 4..off + 4 + |s|] == s
  {
    if off + 4 + |s| <= |bytes| {
      U32Placed(bytes, off, |s|);
      PlacedSlice(bytes, off + 4, s);
      if Placed(bytes, off, U32Bytes(|s|) + s) {
        PlacedSplit(bytes, off, U32Bytes(|s|), s);
      } else if Placed(bytes, off, U32Bytes(|s|)) && Placed(bytes, off + 4, s) {
        Joined(bytes, off, U32Bytes(|s|), s);
      }
    }
  }

  /** A string is read exactly if it stands in the pool in full. */
  lemma TextExact(bytes: seq<Byte>, poolOff: nat, id: nat, s: Text)
    ensures ReadString(bytes, poolOff, id) == Ok(s) <==> TextAt(bytes, poolOff, id, s)
  {
    if |s| < U32_RANGE {
      SizedPlaced(bytes, poolOff + id, s);
    }
  }

  // ---------------------------------------------------------------- what decodes

  /** The depth at which the values inside are decoded is within the limit. */
  predicate Within(below: nat, depth: nat) { depth + below <= MAX_DEPTH }

  lemma ScalarMeans(bytes: seq<Byte>, poolOff: nat, off: nat, v: DocValue)
    requires !v.Object? && !v.Array?
    ensures DecodeAt(bytes, poolOff, off, 0) == Ok(v) <==> Means(bytes, poolOff, off, v)
  {
    if off < |bytes| {
      match v
      case Int(i) =>
        if off + 9 <= |bytes| {
          U64Placed(bytes, off + 1, I64Bits(i));
        }
      case Float(bits) =>
        if off + 9 <= |bytes| {
          U64Placed(bytes, off + 1, bits);
        }
      case Str(s) =>
        if off + 5 <= |bytes| {
          TextExact(bytes, poolOff, U32At(bytes, off + 1), s);
        }
      case Blob(data) =>
        if |data| < U32_RANGE {
          SizedPlaced(bytes, off + 1, data);
        }
      case _ =>
    }
  }

  lemma ScalarAnywhere(bytes: seq<Byte>, poolOff: nat, off: nat, v: DocValue, depth: nat)
    requires !v.Object? && !v.Array? && depth <= MAX_DEPTH
    ensures DecodeAt(bytes, poolOff, off, depth) == Ok(v) <==> DecodeAt(bytes, poolOff, off, 0) == Ok(v)
  {
  }

  /** Bytes decode to a value exactly if they mean it and it is not nested too deep; so what is cut off
      anywhere in what a value consists of does not decode to it. */
  lemma {:induction false} DecodeExact(bytes: seq<Byte>, poolOff: nat, off: nat, v: DocValue, depth: nat)
    ensures DecodeAt(bytes, poolOff, off, depth) == Ok(v) <==> Means(bytes, poolOff, off, v) && Within(Depth(v), depth)
    decreases v, 2
  {
    if depth <= MAX_DEPTH {
      match v
      case Object(fields) => ObjectExact(bytes, poolOff, off, fields, depth);
      case Array(items) => ArrayExact(bytes, poolOff, off, items, depth);
      case _ =>
        ScalarMeans(bytes, poolOff, off, v);
        ScalarAnywhere(bytes, poolOff, off, v, depth);
    }
  }

  lemma {:induction false} ObjectExact(bytes: seq<Byte>, poolOff: nat, off: nat, fields: seq<Field>, depth: nat)
    requires depth <= MAX_DEPTH
    ensures var v := Object(fields);
            DecodeAt(bytes, poolOff, off, depth) == Ok(v) <==> Means(bytes, poolOff, off, v) && Within(Depth(v), depth)
    decreases fields, 3
  {
    if off + 5 <= |bytes| && bytes[off] == 6 {
      var n := U32At(bytes, off + 1);
      var r := DecodeFields(bytes, poolOff, off + 5, n, depth);
      if n == |fields| {
        FieldsExact(bytes, poolOff, off + 5, fields, depth);
      } else {
        FieldCountIs(bytes, poolOff, off + 5, n, depth);
      }
    }
  }

  lemma {:induction false} FieldCountIs(bytes: seq<Byte>, poolOff: nat, entry: nat, count: nat, depth: nat)
    requires depth <= MAX_DEPTH
    ensures var r := DecodeFields(bytes, poolOff, entry, count, depth); r.Ok? ==> |r.value| == count
    decreases count
  {
    if count > 0 {
      FieldCountIs(bytes, poolOff, entry + 8, count - 1, depth);
    }
  }

  function FieldsBelow(fields: seq<Field>): nat { if fields == [] then 0 else 1 + FieldsDepth(fields) }

  lemma {:induction false} FieldsExact(bytes: seq<Byte>, poolOff: nat, entry: nat, fields: seq<Field>, depth: nat)
    requires depth <= MAX_DEPTH
    ensures DecodeFields(bytes, poolOff, entry, |fields|, depth) == Ok(fields) <==>
            MeansFields(bytes, poolOff, entry, fields) && Within(FieldsBelow(fields), depth)
    decreases fields, 2
  {
    if fields != [] {
      FieldsExact(bytes, poolOff, entry + 8, fields[1..], depth);
      FieldExact(bytes, poolOff, entry, fields[0], depth);
      FieldsStep(bytes, poolOff, entry, fields, depth);
    }
  }

  lemma {:induction false} FieldExact(bytes: seq<Byte>, poolOff: nat, entry: nat, field: Field, depth: nat)
    requires depth <= MAX_DEPTH
    ensures DecodeField(bytes, poolOff, entry, depth) == Ok(field) <==>
            MeansField(bytes, poolOff, entry, field) && Within(1 + Depth(field.value), depth)
    decreases field, 3
  {
    if entry + 8 <= |bytes| {
      TextExact(bytes, poolOff, U32At(bytes, entry), field.name);
      DecodeExact(bytes, poolOff, U32At(bytes, entry + 4), field.value, depth + 1);
    }
  }

  /** A table decodes to the fields exactly if its first entry and its rest do. */
  lemma FieldsSplit(bytes: seq<Byte>, poolOff: nat, entry: nat, first: Field, rest: seq<Field>, depth: nat)
    requires depth <= MAX_DEPTH
    ensures DecodeFields(bytes, poolOff, entry, 1 + |rest|, depth) == Ok([first] + rest) <==>
            DecodeField(bytes, poolOff, entry, depth) == Ok(first)
            && DecodeFields(bytes, poolOff, entry + 8, |rest|, depth) == Ok(rest)
  {
    var one, more := DecodeField(bytes, poolOff, entry, depth), DecodeFields(bytes, poolOff, entry + 8, |rest|, depth);
    if one.Ok? && more.Ok? {
      assert ([one.value] + more.value)[0] == one.value && ([one.value] + more.value)[1..] == more.value;
      assert ([first] + rest)[0] == first && ([first] + rest)[1..] == rest;
    }
  }

  lemma FieldsWithin(fields: seq<Field>, depth: nat)
    requires fields != []
    ensures Within(FieldsBelow(fields), depth) <==>
            Within(1 + Depth(fields[0].value), depth) && Within(FieldsBelow(fields[1..]), depth)
  {
    assert FieldsDepth(fields) == Max(Depth(fields[0].value), FieldsDepth(fields[1..]));
  }

  lemma FieldsStep(bytes: seq<Byte>, poolOff: nat, entry: nat, fields: seq<Field>, depth: nat)
    requires fields != [] && depth <= MAX_DEPTH
    requires DecodeField(bytes, poolOff, entry, depth) == Ok(fields[0]) <==>
             MeansField(bytes, poolOff, entry, fields[0]) && Within(1 + Depth(fields[0].value), depth)
    requires DecodeFields(bytes, poolOff, entry + 8, |fields[1..]|, depth) == Ok(fields[1..]) <==>
             MeansFields(bytes, poolOff, entry + 8, fields[1..]) && Within(FieldsBelow(fields[1..]), depth)
    ensures DecodeFields(bytes, poolOff, entry, |fields|, depth) == Ok(fields) <==>
            MeansFields(bytes, poolOff, entry, fields) && Within(FieldsBelow(fields), depth)
  {
    assert [fields[0]] + fields[1..] == fields && 1 + |fields[1..]| == |fields|;
    FieldsSplit(bytes, poolOff, entry, fields[0], fields[1..], depth);
    FieldsWithin(fields, depth);
  }

  lemma {:induction false} ArrayExact(bytes: seq<Byte>, poolOff: nat, off: nat, items: seq<DocValue>, depth: nat)
    requires depth <= MAX_DEPTH
    ensures var v := Array(items);
            DecodeAt(bytes, poolOff, off, depth) == Ok(v) <==> Means(bytes, poolOff, off, v) && Within(Depth(v), depth)
    decreases items, 3
  {
    if off + 5 <= |bytes| && bytes[off] == 7 {
      var n := U32At(bytes, off + 1);
      if n == |items| {
        ItemsExact(bytes, poolOff, off + 5, items, depth);
      } else {
        ItemCountIs(bytes, poolOff, off + 5, n, depth);
      }
    }
  }

  lemma {:induction false} ItemCountIs(bytes: seq<Byte>, poolOff: nat, entry: nat, count: nat, depth: nat)
    requires depth <= MAX_DEPTH
    ensures var r := DecodeItems(bytes, poolOff, entry, count, depth); r.Ok? ==> |r.value| == count
    decreases count
  {
    if count > 0 {
      ItemCountIs(bytes, poolOff, entry + 4, count - 1, depth);
    }
  }

  function ItemsBelow(items: seq<DocValue>): nat { if items == [] then 0 else 1 + ItemsDepth(items) }

  lemma {:induction false} ItemsExact(bytes: seq<Byte>, poolOff: nat, entry: nat, items: seq<DocValue>, depth: nat)
    requires depth <= MAX_DEPTH
    ensures DecodeItems(bytes, poolOff, entry, |items|, depth) == Ok(items) <==>
            MeansItems(bytes, poolOff, entry, items) && Within(ItemsBelow(items), depth)
    decreases items, 2
  {
    if items != [] {
      ItemsExact(bytes, poolOff, entry + 4, items[1..], depth);
      if entry + 4 <= |bytes| {
        DecodeExact(bytes, poolOff, U32At(bytes, entry), items[0], depth + 1);
        ItemsStep(bytes, poolOff, entry, items, depth);
      }
    }
  }

  lemma ItemsStep(bytes: seq<Byte>, poolOff: nat, entry: nat, items: seq<DocValue>, depth: nat)
    requires items != [] && depth <= MAX_DEPTH && entry + 4 <= |bytes|
    requires DecodeAt(bytes, poolOff, U32At(bytes, entry), depth + 1) == Ok(items[0]) <==>
             Means(bytes, poolOff, U32At(bytes, entry), items[0]) && Within(Depth(items[0]), depth + 1)
    requires DecodeItems(bytes, poolOff, entry + 4, |items[1..]|, depth) == Ok(items[1..]) <==>
             MeansItems(bytes, poolOff, entry + 4, items[1..]) && Within(ItemsBelow(items[1..]), depth)
    ensures DecodeItems(bytes, poolOff, entry, |items|, depth) == Ok(items) <==>
            MeansItems(bytes, poolOff, entry, items) && Within(ItemsBelow(items), depth)
  {
    var first, rest := items[0], items[1..];
    assert [first] + rest == items && |rest| == |items| - 1;
    assert ItemsDepth(items) == Max(Depth(first), ItemsDepth(rest));
    var one := DecodeAt(bytes, poolOff, U32At(bytes, entry), depth + 1);
    var more := DecodeItems(bytes, poolOff, entry + 4, |rest|, depth);
    if one.Ok? && more.Ok? {
      assert [one.value] + more.value == items <==> one.value == first && more.value == rest by {
        assert ([one.value] + more.value)[1..] == more.value;
      }
    }
  }

  // ---------------------------------------------------------------- whole documents

  /** Bytes are a document of a value exactly if they start with a whole header whose magic is right and
      mean the value at the offset the header gives. */
  lemma DocumentExact(bytes: seq<Byte>, v: DocValue)
    ensures DecodeRoot(bytes) == Ok(v) <==>
            |bytes| >= HEADER_SIZE && Placed(bytes, 0, MAGIC) && Within(Depth(v), 0)
            && Means(bytes, U32At(bytes, 16), U32At(bytes, 12), v)
  {
    if |bytes| >= HEADER_SIZE {
      PlacedSlice(bytes, 0, MAGIC);
      DecodeExact(bytes, U32At(bytes, 16), U32At(bytes, 12), v, 0);
    }
  }

  /** Bytes mean one value at most. */
  lemma MeansOne(bytes: seq<Byte>, poolOff: nat, off: nat, v: DocValue, w: DocValue)
    requires Means(bytes, poolOff, off, v) && Means(bytes, poolOff, off, w) && Within(Depth(v), 0) && Within(Depth(w), 0)
    ensures v == w
  {
    DecodeExact(bytes, poolOff, off, v, 0);
    DecodeExact(bytes, poolOff, off, w, 0);
  }
}
