/** What a document takes: every byte is accounted for, and every string is stored once. */
module CenDocSize {
  import opened Wrappers
  import opened Bytes
  import opened CenDocFormat
  import CenDocRoundTrip

  // ---------------------------------------------------------------- strings

  /** The strings of a value: field names and string values, at whatever depth. */
  function Strings(v: DocValue): set<Text>
    decreases v
  {
    match v
    case Str(s) => {s}
    case Object(fields) => FieldStrings(fields)
    case Array(items) => ItemStrings(items)
    case _ => {}
  }

  function FieldStrings(fields: seq<Field>): set<Text>
    decreases fields
  {
    if fields == [] then {} else {fields[0].name} + Strings(fields[0].value) + FieldStrings(fields[1..])
  }

  function ItemStrings(items: seq<DocValue>): set<Text>
    decreases items
  {
    if items == [] then {} else Strings(items[0]) + ItemStrings(items[1..])
  }

  ghost predicate Distinct(names: seq<Text>) { forall i, j :: 0 <= i < j < |names| ==> names[i] != names[j] }

  /** The names are those of `before` and, each once, the strings of `added`. */
  ghost predicate Gains(before: seq<Text>, after: seq<Text>, added: set<Text>) {
    && (Distinct(before) ==> Distinct(after))
    && forall s :: s in after <==> s in before || s in added
  }

  lemma InternGains(names: seq<Text>, s: Text)
    ensures Gains(names, Intern(names, s), {s})
  {
    CenDocRoundTrip.InternedMeans(names, s);
  }

  lemma GainsMore(a: seq<Text>, b: seq<Text>, c: seq<Text>, x: set<Text>, y: set<Text>)
    requires Gains(a, b, x) && Gains(b, c, y)
    ensures Gains(a, c, x + y)
  {
  }

  /** Writing a value interns its strings, no others, and none twice. */
  lemma {:induction false} NamesExact(v: DocValue, at: nat, names: seq<Text>)
    ensures Gains(names, Emit(v, at, names).names, Strings(v))
    decreases v, 1
  {
    match v
    case Str(s) => InternGains(names, s);
    case Object(fields) => FieldNamesExact(fields, at + 5 + 8 * |fields|, names);
    case Array(items) => ItemNamesExact(items, at + 5 + 4 * |items|, names);
    case _ =>
  }

  lemma {:induction false} FieldNamesExact(fields: seq<Field>, at: nat, names: seq<Text>)
    ensures Gains(names, EmitFields(fields, at, names).names, FieldStrings(fields))
    decreases fields, 0
  {
    if fields != [] {
      var names1 := Intern(names, fields[0].name);
      var first := Emit(fields[0].value, at, names1);
      InternGains(names, fields[0].name);
      NamesExact(fields[0].value, at, names1);
      FieldNamesExact(fields[1..], at + |first.bytes|, first.names);
      GainsMore(names, names1, first.names, {fields[0].name}, Strings(fields[0].value));
      GainsMore(names, first.names, EmitFields(fields, at, names).names, {fields[0].name} + Strings(fields[0].value),
                FieldStrings(fields[1..]));
    }
  }

  lemma {:induction false} ItemNamesExact(items: seq<DocValue>, at: nat, names: seq<Text>)
    ensures Gains(names, EmitItems(items, at, names).names, ItemStrings(items))
    decreases items, 0
  {
    if items != [] {
      var first := Emit(items[0], at, names);
      NamesExact(items[0], at, names);
      ItemNamesExact(items[1..], at + |first.bytes|, first.names);
      GainsMore(names, first.names, EmitItems(items, at, names).names, Strings(items[0]), ItemStrings(items[1..]));
    }
  }

  // ---------------------------------------------------------------- sizes

  /** The bytes of a value without its strings: a kind, and a number of eight bytes, an id or a count of
      four, raw bytes, or a table of eight bytes a field or four an item and the values. */
  function Size(v: DocValue): nat
    decreases v
  {
    match v
    case Null => 1
    case Bool(_) => 2
    case Int(_) => 9
    case Float(_) => 9
    case Str(_) => 5
    case Blob(data) => 5 + |data|
    case Object(fields) => 5 + FieldSizes(fields)
    case Array(items) => 5 + ItemSizes(items)
  }

  function FieldSizes(fields: seq<Field>): nat
    decreases fields
  {
    if fields == [] then 0 else 8 + Size(fields[0].value) + FieldSizes(fields[1..])
  }

  function ItemSizes(items: seq<DocValue>): nat
    decreases items
  {
    if items == [] then 0 else 4 + Size(items[0]) + ItemSizes(items[1..])
  }

  function PoolSize(names: seq<Text>): nat {
    if names == [] then 0 else 4 + |names[0]| + PoolSize(names[1..])
  }

  lemma {:induction false} SizeExact(v: DocValue, at: nat, names: seq<Text>)
    ensures |Emit(v, at, names).bytes| == Size(v)
    decreases v, 1
  {
    match v
    case Object(fields) => FieldSizesExact(fields, at + 5 + 8 * |fields|, names);
    case Array(items) => ItemSizesExact(items, at + 5 + 4 * |items|, names);
    case _ =>
  }

  lemma {:induction false} FieldSizesExact(fields: seq<Field>, at: nat, names: seq<Text>)
    ensures var laid := EmitFields(fields, at, names); |laid.table| + |laid.values| == FieldSizes(fields)
    decreases fields, 0
  {
    if fields != [] {
      var names1 := Intern(names, fields[0].name);
      var first := Emit(fields[0].value, at, names1);
      SizeExact(fields[0].value, at, names1);
      FieldSizesExact(fields[1..], at + |first.bytes|, first.names);
    }
  }

  lemma {:induction false} ItemSizesExact(items: seq<DocValue>, at: nat, names: seq<Text>)
    ensures var laid := EmitItems(items, at, names); |laid.table| + |laid.values| == ItemSizes(items)
    decreases items, 0
  {
    if items != [] {
      var first := Emit(items[0], at, names);
      SizeExact(items[0], at, names);
      ItemSizesExact(items[1..], at + |first.bytes|, first.names);
    }
  }

  lemma {:induction false} PoolSizeExact(names: seq<Text>)
    ensures |PoolBytes(names)| == PoolSize(names)
  {
    if names != [] {
      PoolSizeExact(names[1..]);
    }
  }

  /** A document is its header, its value and one copy of each of its strings, and nothing else. */
  lemma DocumentSize(v: DocValue) returns (names: seq<Text>)
    ensures Distinct(names) && forall s :: s in names <==> s in Strings(v)
    ensures |Document(v)| == HEADER_SIZE + Size(v) + PoolSize(names)
    ensures Document(v)[HEADER_SIZE + Size(v)..] == PoolBytes(names)
  {
    var root := Emit(v, HEADER_SIZE, []);
    names := root.names;
    NamesExact(v, HEADER_SIZE, []);
    SizeExact(v, HEADER_SIZE, []);
    PoolSizeExact(names);
  }

  // ---------------------------------------------------------------- numbers

  /** A signed integer is stored as its residue modulo 2 to the 64, and comes back from it. */
  lemma TwosComplement(x: I64)
    ensures I64Bits(x) == x % U64_RANGE && BitsI64(x % U64_RANGE) == x
  {
  }

  /** The bytes of a number are its digits to the base 256, the lowest first. */
  lemma LittleEndian(x: nat)
    ensures U32Bytes(x) == [x % 256, x / 0x100 % 256, x / 0x1_0000 % 256, x / 0x100_0000 % 256]
  {
    U32BytesAre(x);
    assert x / 256 / 256 == x / 0x1_0000;
    assert x / 256 / 256 / 256 == x / 0x100_0000;
  }
}
