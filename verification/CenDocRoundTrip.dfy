/** Decoding undoes encoding, exactly up to the nesting cap. */
module CenDocRoundTrip {
  import opened Wrappers
  import opened Bytes
  import opened CenDocFormat

  // ---------------------------------------------------------------- string ids

  lemma {:induction false} InternedMeans(names: seq<Text>, s: Text)
    ensures Interned(names, s) <==> s in names
  {
    if names != [] {
      InternedMeans(names[1..], s);
      assert s in names <==> names[0] == s || s in names[1..];
    }
  }

  lemma InternHolds(names: seq<Text>, s: Text)
    ensures Interned(Intern(names, s), s) && names <= Intern(names, s)
  {
    InternedMeans(names, s);
    InternedMeans(Intern(names, s), s);
  }

  /** Interning only ever appends. */
  lemma {:induction false} NamesGrow(v: DocValue, at: nat, names: seq<Text>)
    ensures names <= Emit(v, at, names).names
    decreases v, 1
  {
    match v
    case Str(s) => InternHolds(names, s);
    case Object(fields) => NamesGrowFields(fields, at + 5 + 8 * |fields|, names);
    case Array(items) => NamesGrowItems(items, at + 5 + 4 * |items|, names);
    case _ =>
  }

  lemma {:induction false} NamesGrowFields(fields: seq<Field>, at: nat, names: seq<Text>)
    ensures names <= EmitFields(fields, at, names).names
    decreases fields, 0
  {
    if fields != [] {
      var names1 := Intern(names, fields[0].name);
      var first := Emit(fields[0].value, at, names1);
      InternHolds(names, fields[0].name);
      NamesGrow(fields[0].value, at, names1);
      NamesGrowFields(fields[1..], at + |first.bytes|, first.names);
    }
  }

  lemma {:induction false} NamesGrowItems(items: seq<DocValue>, at: nat, names: seq<Text>)
    ensures names <= EmitItems(items, at, names).names
    decreases items, 0
  {
    if items != [] {
      var first := Emit(items[0], at, names);
      NamesGrow(items[0], at, names);
      NamesGrowItems(items[1..], at + |first.bytes|, first.names);
    }
  }

  /** A string id stays valid while the pool grows. */
  lemma {:induction false} IdStable(names: seq<Text>, grown: seq<Text>, s: Text)
    requires Interned(names, s) && names <= grown
    ensures Interned(grown, s) && IdOf(grown, s) == IdOf(names, s)
  {
    if names[0] != s {
      IdStable(names[1..], grown[1..], s);
    }
  }

  lemma {:induction false} PoolHolds(names: seq<Text>, s: Text)
    requires Interned(names, s)
    ensures Placed(PoolBytes(names), IdOf(names, s), U32Bytes(|s|) + s)
  {
    var head, tail := U32Bytes(|names[0]|) + names[0], PoolBytes(names[1..]);
    assert Placed(head + tail, 0, head);
    if names[0] != s {
      PoolHolds(names[1..], s);
      assert Placed(head + tail, |head|, tail);
      PlacedWithin(head + tail, |head|, tail, IdOf(names[1..], s), U32Bytes(|s|) + s);
    }
  }

  /** The id of `s` in the pool of `names` leads the reader to `s`. */
  ghost predicate ReadsBack(bytes: seq<Byte>, poolOff: nat, names: seq<Text>, s: Text) {
    IdOf(names, s) < U32_RANGE && ReadString(bytes, poolOff, IdOf(names, s)) == Ok(s)
  }

  /** `bytes` is short enough for u32 offsets and every interned string can be read from it. */
  ghost predicate Readable(bytes: seq<Byte>, poolOff: nat, names: seq<Text>) {
    |bytes| < U32_RANGE && forall s :: s in names ==> ReadsBack(bytes, poolOff, names, s)
  }

  lemma PoolIsReadable(bytes: seq<Byte>, poolOff: nat, names: seq<Text>)
    requires |bytes| < U32_RANGE && Placed(bytes, poolOff, PoolBytes(names))
    ensures Readable(bytes, poolOff, names)
  {
    forall s | s in names ensures ReadsBack(bytes, poolOff, names, s) {
      InternedMeans(names, s);
      PoolHolds(names, s);
      var k := poolOff + IdOf(names, s);
      PlacedWithin(bytes, poolOff, PoolBytes(names), IdOf(names, s), U32Bytes(|s|) + s);
      PlacedSplit(bytes, k, U32Bytes(|s|), s);
      PlacedSlice(bytes, k + 4, s);
      ReadU32(bytes, k, |s|);
    }
  }

  lemma ReadableEarlier(bytes: seq<Byte>, poolOff: nat, names: seq<Text>, grown: seq<Text>)
    requires Readable(bytes, poolOff, grown) && names <= grown
    ensures Readable(bytes, poolOff, names)
  {
    forall s | s in names ensures ReadsBack(bytes, poolOff, names, s) {
      InternedMeans(names, s);
      IdStable(names, grown, s);
      InternedMeans(grown, s);
    }
  }

  /** If the strings interned by the end are readable, so are those interned by the first field. */
  lemma FirstFieldReadable(bytes: seq<Byte>, poolOff: nat, fields: seq<Field>, at: nat, names: seq<Text>)
    requires fields != [] && Readable(bytes, poolOff, EmitFields(fields, at, names).names)
    ensures var names1 := Intern(names, fields[0].name);
            && ReadsBack(bytes, poolOff, names1, fields[0].name)
            && Readable(bytes, poolOff, Emit(fields[0].value, at, names1).names)
  {
    var names1 := Intern(names, fields[0].name);
    var first := Emit(fields[0].value, at, names1);
    NamesGrowFields(fields[1..], at + |first.bytes|, first.names);
    ReadableEarlier(bytes, poolOff, first.names, EmitFields(fields, at, names).names);
    NamesGrow(fields[0].value, at, names1);
    ReadableEarlier(bytes, poolOff, names1, first.names);
    InternHolds(names, fields[0].name);
    InternedMeans(names1, fields[0].name);
  }

  lemma FirstItemReadable(bytes: seq<Byte>, poolOff: nat, items: seq<DocValue>, at: nat, names: seq<Text>)
    requires items != [] && Readable(bytes, poolOff, EmitItems(items, at, names).names)
    ensures Readable(bytes, poolOff, Emit(items[0], at, names).names)
  {
    var first := Emit(items[0], at, names);
    NamesGrowItems(items[1..], at + |first.bytes|, first.names);
    ReadableEarlier(bytes, poolOff, first.names, EmitItems(items, at, names).names);
  }

  // ---------------------------------------------------------------- values

  /** What the bytes at `off` mean, independently of how they came about. */
  ghost predicate Represents(bytes: seq<Byte>, poolOff: nat, off: nat, v: DocValue)
    decreases v, 1
  {
    && off < |bytes| && bytes[off] == v.Kind()
    && match v
       case Null => true
       case Bool(b) => off + 2 <= |bytes| && bytes[off + 1] == if b then 1 else 0
       case Int(i) => off + 9 <= |bytes| && U64At(bytes, off + 1) == I64Bits(i)
       case Float(bits) => off + 9 <= |bytes| && U64At(bytes, off + 1) == bits
       case Str(s) => off + 5 <= |bytes| && ReadString(bytes, poolOff, U32At(bytes, off + 1)) == Ok(s)
       case Blob(data) =>
         off + 5 <= |bytes| && U32At(bytes, off + 1) == |data| && Placed(bytes, off + 5, data)
       case Object(fields) =>
         off + 5 <= |bytes| && U32At(bytes, off + 1) == |fields| &&
         RepresentsFields(bytes, poolOff, off + 5, fields)
       case Array(items) =>
         off + 5 <= |bytes| && U32At(bytes, off + 1) == |items| &&
         RepresentsItems(bytes, poolOff, off + 5, items)
  }

  ghost predicate RepresentsFields(bytes: seq<Byte>, poolOff: nat, entry: nat, fields: seq<Field>)
    decreases fields, 0
  {
    fields == [] ||
    (FieldRepresented(bytes, poolOff, entry, fields[0]) && RepresentsFields(bytes, poolOff, entry + 8, fields[1..]))
  }

  ghost predicate FieldRepresented(bytes: seq<Byte>, poolOff: nat, entry: nat, field: Field)
    decreases field, 0
  {
    && entry + 8 <= |bytes|
    && ReadString(bytes, poolOff, U32At(bytes, entry)) == Ok(field.name)
    && Represents(bytes, poolOff, U32At(bytes, entry + 4), field.value)
  }

  ghost predicate RepresentsItems(bytes: seq<Byte>, poolOff: nat, entry: nat, items: seq<DocValue>)
    decreases items, 0
  {
    items == [] ||
    (&& entry + 4 <= |bytes|
     && Represents(bytes, poolOff, U32At(bytes, entry), items[0])
     && RepresentsItems(bytes, poolOff, entry + 4, items[1..]))
  }

  lemma UnfoldFields(fields: seq<Field>, at: nat, names: seq<Text>) returns (id: nat, first: Emitted, rest: Laid)
    requires fields != []
    ensures var names1 := Intern(names, fields[0].name);
            id == IdOf(names1, fields[0].name) && first == Emit(fields[0].value, at, names1)
    ensures rest == EmitFields(fields[1..], at + |first.bytes|, first.names)
    ensures EmitFields(fields, at, names) ==
            Laid(U32Bytes(id) + U32Bytes(at) + rest.table, first.bytes + rest.values, rest.names)
  {
    var names1 := Intern(names, fields[0].name);
    id, first := IdOf(names1, fields[0].name), Emit(fields[0].value, at, names1);
    rest := EmitFields(fields[1..], at + |first.bytes|, first.names);
  }

  lemma UnfoldItems(items: seq<DocValue>, at: nat, names: seq<Text>) returns (first: Emitted, rest: Laid)
    requires items != []
    ensures first == Emit(items[0], at, names)
    ensures rest == EmitItems(items[1..], at + |first.bytes|, first.names)
    ensures EmitItems(items, at, names) ==
            Laid(U32Bytes(at) + rest.table, first.bytes + rest.values, rest.names)
  {
    first := Emit(items[0], at, names);
    rest := EmitItems(items[1..], at + |first.bytes|, first.names);
  }

  /** Wherever a value's bytes stand, they mean that value, whatever follows them and whatever
      strings were interned later. */
  lemma {:induction false} EmitRepresents(bytes: seq<Byte>, poolOff: nat,
                                          v: DocValue, off: nat, names: seq<Text>)
    requires Readable(bytes, poolOff, Emit(v, off, names).names)
    requires Placed(bytes, off, Emit(v, off, names).bytes)
    ensures Represents(bytes, poolOff, off, v)
    decreases v, 1
  {
    match v
    case Object(fields) => EmitRepresentsObject(bytes, poolOff, fields, off, names);
    case Array(items) => EmitRepresentsArray(bytes, poolOff, items, off, names);
    case _ => EmitRepresentsScalar(bytes, poolOff, v, off, names);
  }

  lemma {:induction false} EmitRepresentsObject(bytes: seq<Byte>, poolOff: nat,
                                                fields: seq<Field>, off: nat, names: seq<Text>)
    requires Readable(bytes, poolOff, Emit(Object(fields), off, names).names)
    requires Placed(bytes, off, Emit(Object(fields), off, names).bytes)
    ensures Represents(bytes, poolOff, off, Object(fields))
    decreases fields, 2
  {
    var at := off + 5 + 8 * |fields|;
    var laid := EmitFields(fields, at, names);
    ContainerParts(bytes, off, 6, |fields|, laid);
    EmitRepresentsFields(bytes, poolOff, fields, off + 5, at, names, laid);
  }

  lemma {:induction false} EmitRepresentsArray(bytes: seq<Byte>, poolOff: nat,
                                                items: seq<DocValue>, off: nat, names: seq<Text>)
    requires Readable(bytes, poolOff, Emit(Array(items), off, names).names)
    requires Placed(bytes, off, Emit(Array(items), off, names).bytes)
    ensures Represents(bytes, poolOff, off, Array(items))
    decreases items, 2
  {
    var at := off + 5 + 4 * |items|;
    var laid := EmitItems(items, at, names);
    ContainerParts(bytes, off, 7, |items|, laid);
    EmitRepresentsItems(bytes, poolOff, items, off + 5, at, names, laid);
  }

  lemma EmitRepresentsScalar(bytes: seq<Byte>, poolOff: nat,
                             v: DocValue, off: nat, names: seq<Text>)
    requires !v.Object? && !v.Array?
    requires Readable(bytes, poolOff, Emit(v, off, names).names)
    requires Placed(bytes, off, Emit(v, off, names).bytes)
    ensures Represents(bytes, poolOff, off, v)
  {
    var body := Emit(v, off, names).bytes[1..];
    assert Emit(v, off, names).bytes == [v.Kind()] + body;
    PlacedSplit(bytes, off, [v.Kind()], body);
    assert [v.Kind()][0] == v.Kind();
    match v
    case Null =>
    case Bool(b) =>
      assert body[0] == if b then 1 else 0;
    case Int(i) =>
      ReadU64(bytes, off + 1, I64Bits(i));
    case Float(bits) =>
      ReadU64(bytes, off + 1, bits);
    case Str(s) =>
      InternHolds(names, s);
      InternedMeans(Intern(names, s), s);
      ReadU32(bytes, off + 1, IdOf(Intern(names, s), s));
    case Blob(data) =>
      PlacedSplit(bytes, off + 1, U32Bytes(|data|), data);
      ReadU32(bytes, off + 1, |data|);
  }

  /** The parts of a container: kind, element count, offset table, element values. */
  lemma ContainerParts(bytes: seq<Byte>, off: nat, kind: Byte, n: nat, laid: Laid)
    requires Placed(bytes, off, Container(kind, n, laid).bytes)
    requires n < U32_RANGE
    ensures off + 5 <= |bytes| && bytes[off] == kind && U32At(bytes, off + 1) == n
    ensures Placed(bytes, off + 5, laid.table) && Placed(bytes, off + 5 + |laid.table|, laid.values)
  {
    var body := laid.table + laid.values;
    PlacedSplit(bytes, off, [kind], U32Bytes(n) + body);
    assert [kind][0] == kind;
    PlacedSplit(bytes, off + 1, U32Bytes(n), body);
    PlacedSplit(bytes, off + 5, laid.table, laid.values);
    ReadU32(bytes, off + 1, n);
  }

  lemma {:induction false} EmitRepresentsFields(bytes: seq<Byte>, poolOff: nat, fields: seq<Field>, entry: nat,
                                                at: nat, names: seq<Text>, laid: Laid)
    requires laid == EmitFields(fields, at, names) && Readable(bytes, poolOff, laid.names)
    requires Placed(bytes, entry, laid.table) && Placed(bytes, at, laid.values)
    ensures RepresentsFields(bytes, poolOff, entry, fields)
    decreases fields, 1
  {
    if fields != [] {
      var next, nextNames, rest := FirstFieldRepresented(bytes, poolOff, fields, entry, at, names, laid);
      EmitRepresentsFields(bytes, poolOff, fields[1..], entry + 8, next, nextNames, rest);
      FieldsRepresented(bytes, poolOff, entry, fields);
    }
  }

  /** The first field is in place, and the others follow. */
  lemma {:induction false} FirstFieldRepresented(bytes: seq<Byte>, poolOff: nat, fields: seq<Field>, entry: nat,
                                                 at: nat, names: seq<Text>, laid: Laid)
    returns (next: nat, nextNames: seq<Text>, rest: Laid)
    requires fields != [] && laid == EmitFields(fields, at, names) && Readable(bytes, poolOff, laid.names)
    requires Placed(bytes, entry, laid.table) && Placed(bytes, at, laid.values)
    ensures FieldRepresented(bytes, poolOff, entry, fields[0])
    ensures rest == EmitFields(fields[1..], next, nextNames) && Readable(bytes, poolOff, rest.names)
    ensures Placed(bytes, entry + 8, rest.table) && Placed(bytes, next, rest.values)
    decreases fields, 0
  {
    var names1, first;
    names1, first, rest := FieldParts(bytes, poolOff, fields, entry, at, names, laid);
    EmitRepresents(bytes, poolOff, fields[0].value, at, names1);
    next, nextNames := at + |first.bytes|, first.names;
  }

  lemma FieldsRepresented(bytes: seq<Byte>, poolOff: nat, entry: nat, fields: seq<Field>)
    requires fields != [] && FieldRepresented(bytes, poolOff, entry, fields[0])
    requires RepresentsFields(bytes, poolOff, entry + 8, fields[1..])
    ensures RepresentsFields(bytes, poolOff, entry, fields)
  {
  }

  lemma FieldParts(bytes: seq<Byte>, poolOff: nat, fields: seq<Field>, entry: nat,
                   at: nat, names: seq<Text>, laid: Laid)
    returns (names1: seq<Text>, first: Emitted, rest: Laid)
    requires fields != [] && laid == EmitFields(fields, at, names) && Readable(bytes, poolOff, laid.names)
    requires Placed(bytes, entry, laid.table) && Placed(bytes, at, laid.values)
    ensures first == Emit(fields[0].value, at, names1)
    ensures rest == EmitFields(fields[1..], at + |first.bytes|, first.names)
    ensures Readable(bytes, poolOff, first.names) && Readable(bytes, poolOff, rest.names)
    ensures Placed(bytes, at, first.bytes) && Placed(bytes, at + |first.bytes|, rest.values)
    ensures Placed(bytes, entry + 8, rest.table) && U32At(bytes, entry + 4) == at
    ensures ReadString(bytes, poolOff, U32At(bytes, entry)) == Ok(fields[0].name)
  {
    FirstFieldReadable(bytes, poolOff, fields, at, names);
    names1 := Intern(names, fields[0].name);
    var id;
    id, first, rest := UnfoldFields(fields, at, names);
    PlacedSplit(bytes, at, first.bytes, rest.values);
    SplitTable(bytes, poolOff, fields[0].name, id, entry, at, rest.table);
  }

  /** The first table entry leads to the first field's name and value. */
  lemma SplitTable(bytes: seq<Byte>, poolOff: nat, name: Text, id: nat, entry: nat, at: nat, rest: seq<Byte>)
    requires ReadString(bytes, poolOff, id) == Ok(name) && id < U32_RANGE && at < U32_RANGE
    requires Placed(bytes, entry, U32Bytes(id) + U32Bytes(at) + rest)
    ensures Placed(bytes, entry + 8, rest) && U32At(bytes, entry + 4) == at
    ensures ReadString(bytes, poolOff, U32At(bytes, entry)) == Ok(name)
  {
    PlacedSplit3(bytes, entry, U32Bytes(id), U32Bytes(at), rest);
    ReadU32(bytes, entry, id);
    ReadU32(bytes, entry + 4, at);
  }

  lemma SplitItemTable(bytes: seq<Byte>, entry: nat, at: nat, rest: seq<Byte>)
    requires Placed(bytes, entry, U32Bytes(at) + rest) && at < U32_RANGE
    ensures Placed(bytes, entry + 4, rest) && U32At(bytes, entry) == at
  {
    PlacedSplit(bytes, entry, U32Bytes(at), rest);
    ReadU32(bytes, entry, at);
  }

  lemma {:induction false} EmitRepresentsItems(bytes: seq<Byte>, poolOff: nat, items: seq<DocValue>, entry: nat,
                                               at: nat, names: seq<Text>, laid: Laid)
    requires laid == EmitItems(items, at, names) && Readable(bytes, poolOff, laid.names)
    requires Placed(bytes, entry, laid.table) && Placed(bytes, at, laid.values)
    ensures RepresentsItems(bytes, poolOff, entry, items)
    decreases items, 0
  {
    if items != [] {
      var first, rest := ItemParts(bytes, poolOff, items, entry, at, names, laid);
      EmitRepresents(bytes, poolOff, items[0], at, names);
      EmitRepresentsItems(bytes, poolOff, items[1..], entry + 4, at + |first.bytes|, first.names, rest);
    }
  }

  lemma ItemParts(bytes: seq<Byte>, poolOff: nat, items: seq<DocValue>, entry: nat,
                  at: nat, names: seq<Text>, laid: Laid)
    returns (first: Emitted, rest: Laid)
    requires items != [] && laid == EmitItems(items, at, names) && Readable(bytes, poolOff, laid.names)
    requires Placed(bytes, entry, laid.table) && Placed(bytes, at, laid.values)
    ensures first == Emit(items[0], at, names)
    ensures rest == EmitItems(items[1..], at + |first.bytes|, first.names)
    ensures Readable(bytes, poolOff, first.names) && Readable(bytes, poolOff, rest.names)
    ensures Placed(bytes, at, first.bytes) && Placed(bytes, at + |first.bytes|, rest.values)
    ensures Placed(bytes, entry + 4, rest.table) && U32At(bytes, entry) == at
  {
    FirstItemReadable(bytes, poolOff, items, at, names);
    first, rest := UnfoldItems(items, at, names);
    SplitItemTable(bytes, entry, at, rest.table);
    PlacedSplit(bytes, at, first.bytes, rest.values);
  }

  // ---------------------------------------------------------------- decoding

  /** What decoding `v` at `depth` must yield when `below` more levels hang under it. */
  function Expected<T>(v: T, depth: nat, below: nat): Result<T, DecodeError> {
    if depth + below <= MAX_DEPTH then Ok(v) else Err(TooDeep)
  }

  /** The decoder recovers what the bytes mean, exactly up to the nesting cap. */
  lemma {:induction false} DecodeRepresented(bytes: seq<Byte>, poolOff: nat, off: nat, v: DocValue, depth: nat)
    requires Represents(bytes, poolOff, off, v)
    ensures DecodeAt(bytes, poolOff, off, depth) == Expected(v, depth, Depth(v))
    decreases v, 1
  {
    if depth <= MAX_DEPTH {
      match v
      case Blob(data) => PlacedSlice(bytes, off + 5, data);
      case Object(fields) => DecodeRepresentedFields(bytes, poolOff, off + 5, fields, depth);
      case Array(items) => DecodeRepresentedItems(bytes, poolOff, off + 5, items, depth);
      case _ =>
    }
  }

  lemma {:induction false} DecodeRepresentedFields(bytes: seq<Byte>, poolOff: nat, entry: nat,
                                                   fields: seq<Field>, depth: nat)
    requires RepresentsFields(bytes, poolOff, entry, fields) && depth <= MAX_DEPTH
    ensures DecodeFields(bytes, poolOff, entry, |fields|, depth) == ExpectedFields(fields, depth)
    decreases fields, 0
  {
    if fields != [] {
      DecodeRepresented(bytes, poolOff, U32At(bytes, entry + 4), fields[0].value, depth + 1);
      DecodeRepresentedFields(bytes, poolOff, entry + 8, fields[1..], depth);
      DecodeFieldsStep(bytes, poolOff, entry, fields, depth);
    }
  }

  lemma DecodeFieldsStep(bytes: seq<Byte>, poolOff: nat, entry: nat, fields: seq<Field>, depth: nat)
    requires fields != [] && depth <= MAX_DEPTH && entry + 8 <= |bytes|
    requires ReadString(bytes, poolOff, U32At(bytes, entry)) == Ok(fields[0].name)
    requires DecodeAt(bytes, poolOff, U32At(bytes, entry + 4), depth + 1) ==
             Expected(fields[0].value, depth + 1, Depth(fields[0].value))
    requires DecodeFields(bytes, poolOff, entry + 8, |fields[1..]|, depth) == ExpectedFields(fields[1..], depth)
    ensures DecodeFields(bytes, poolOff, entry, |fields|, depth) == ExpectedFields(fields, depth)
  {
    assert |fields[1..]| == |fields| - 1;
    assert FieldsDepth(fields) == Max(Depth(fields[0].value), FieldsDepth(fields[1..]));
    assert [Field(fields[0].name, fields[0].value)] + fields[1..] == fields;
  }

  function ExpectedFields(fields: seq<Field>, depth: nat): Result<seq<Field>, DecodeError> {
    if fields == [] then Ok([]) else Expected(fields, depth, 1 + FieldsDepth(fields))
  }

  lemma {:induction false} DecodeRepresentedItems(bytes: seq<Byte>, poolOff: nat, entry: nat,
                                                  items: seq<DocValue>, depth: nat)
    requires RepresentsItems(bytes, poolOff, entry, items) && depth <= MAX_DEPTH
    ensures DecodeItems(bytes, poolOff, entry, |items|, depth) ==
            if items == [] then Ok([]) else Expected(items, depth, 1 + ItemsDepth(items))
    decreases items, 0
  {
    if items != [] {
      var rest := items[1..];
      DecodeRepresented(bytes, poolOff, U32At(bytes, entry), items[0], depth + 1);
      DecodeRepresentedItems(bytes, poolOff, entry + 4, rest, depth);
      assert |rest| == |items| - 1;
      assert ItemsDepth(items) == Max(Depth(items[0]), ItemsDepth(rest));
      assert [items[0]] + rest == items;
    }
  }

  // ---------------------------------------------------------------- whole documents

  /** The finished buffer of an encoding whose offsets all fit in a u32. */
  ghost predicate Fits(v: DocValue) { |Document(v)| < U32_RANGE }

  lemma DocumentParts(v: DocValue)
    requires Fits(v)
    ensures var doc := Document(v);
            && ParseHeader(doc) == Ok(Header(v.Kind(), FieldCount(v), HEADER_SIZE, PoolStart(v)))
            && Represents(doc, PoolStart(v), HEADER_SIZE, v)
  {
    var doc, root := Document(v), Emit(v, HEADER_SIZE, []);
    var head := HeaderBytes(v.Kind(), FieldCount(v), HEADER_SIZE, PoolStart(v));
    DocumentPlaces(doc, head, root.bytes, PoolBytes(root.names));
    assert FieldCount(v) <= |root.bytes|;
    HeaderPlaced(doc, v.Kind(), FieldCount(v), HEADER_SIZE, PoolStart(v));
    PoolIsReadable(doc, PoolStart(v), root.names);
    EmitRepresents(doc, PoolStart(v), v, HEADER_SIZE, []);
  }

  lemma DocumentPlaces(doc: seq<Byte>, a: seq<Byte>, b: seq<Byte>, c: seq<Byte>)
    requires doc == a + b + c
    ensures Placed(doc, 0, a) && Placed(doc, |a|, b) && Placed(doc, |a| + |b|, c)
  {
  }

  lemma HeaderPlaced(doc: seq<Byte>, kind: Byte, fieldCount: nat, rootOff: nat, poolOff: nat)
    requires Placed(doc, 0, HeaderBytes(kind, fieldCount, rootOff, poolOff))
    requires fieldCount < U32_RANGE && rootOff < U32_RANGE && poolOff < U32_RANGE
    ensures ParseHeader(doc) == Ok(Header(kind, fieldCount, rootOff, poolOff))
  {
    var tag, a, b, c := MAGIC + [kind, 0, 0, 0], U32Bytes(fieldCount), U32Bytes(rootOff), U32Bytes(poolOff);
    assert HeaderBytes(kind, fieldCount, rootOff, poolOff) == tag + (a + (b + c));
    PlacedSplit(doc, 0, tag, a + (b + c));
    PlacedSlice(doc, 0, tag);
    assert doc[0..4] == doc[0..8][..4] == tag[..4] == MAGIC;
    assert doc[4] == tag[4] == kind;
    PlacedSplit(doc, 8, a, b + c);
    PlacedSplit(doc, 12, b, c);
    ReadU32(doc, 8, fieldCount);
    ReadU32(doc, 12, rootOff);
    ReadU32(doc, 16, poolOff);
  }

  /** Decoding an encoded document returns the very same value if and only if no container is
      nested more than 256 levels below the root; deeper documents are rejected. */
  lemma RoundTrip(v: DocValue)
    requires Fits(v)
    ensures DecodeRoot(Document(v)) == if Depth(v) <= MAX_DEPTH then Ok(v) else Err(TooDeep)
  {
    DocumentParts(v);
    DecodeRepresented(Document(v), PoolStart(v), HEADER_SIZE, v, 0);
  }

  /** Documents the decoder accepts are told apart by their bytes. */
  lemma EncodingInjective(v: DocValue, w: DocValue)
    requires Fits(v) && Depth(v) <= MAX_DEPTH && Document(v) == Document(w)
    ensures v == w
  {
    RoundTrip(v);
    RoundTrip(w);
  }

  // ---------------------------------------------------------------- point access

  /** The value of the first field called `name`. */
  function FirstField(fields: seq<Field>, name: Text): Option<DocValue> {
    if fields == [] then None
    else if fields[0].name == name then Some(fields[0].value)
    else FirstField(fields[1..], name)
  }

  function Lookup(v: DocValue, name: Text): Option<DocValue> {
    if v.Object? then FirstField(v.fields, name) else None
  }

  /** The value found is decoded from depth 0, whatever its depth in the document. */
  function ExpectedField(found: Option<DocValue>): Result<Option<DocValue>, DecodeError> {
    if found.Some? && Depth(found.value) > MAX_DEPTH then Err(TooDeep) else Ok(found)
  }

  /** The scan of the offset table stops at the first field of that name. */
  lemma {:induction false} FindRepresented(bytes: seq<Byte>, poolOff: nat, entry: nat,
                                           fields: seq<Field>, name: Text)
    requires RepresentsFields(bytes, poolOff, entry, fields)
    ensures var found := FindField(bytes, poolOff, entry, |fields|, name);
            match FirstField(fields, name)
            case None => found == Ok(None)
            case Some(v) => found.Ok? && found.value.Some? && Represents(bytes, poolOff, found.value.value, v)
    decreases fields
  {
    if fields != [] && fields[0].name != name {
      assert |fields[1..]| == |fields| - 1;
      FindRepresented(bytes, poolOff, entry + 8, fields[1..], name);
    }
  }

  /** Point access finds the first field of that name, in every document that fits. */
  lemma GetFieldFinds(v: DocValue, name: Text)
    requires Fits(v)
    ensures GetField(Document(v), name) == ExpectedField(Lookup(v, name))
  {
    var doc := Document(v);
    DocumentParts(v);
    if v.Object? {
      FindRepresented(doc, PoolStart(v), HEADER_SIZE + 5, v.fields, name);
      if Lookup(v, name).Some? {
        var off := FindField(doc, PoolStart(v), HEADER_SIZE + 5, |v.fields|, name).value.value;
        DecodeRepresented(doc, PoolStart(v), off, Lookup(v, name).value, 0);
      }
    }
  }

  /** Point access agrees with decoding everything and looking the name up; on a document nested
      too deeply to decode it still answers when the field itself is shallow enough. */
  lemma GetFieldAgreesWithDecodeRoot(v: DocValue, name: Text)
    requires Fits(v)
    ensures DecodeRoot(Document(v)).Ok? ==>
              GetField(Document(v), name) == Ok(Lookup(DecodeRoot(Document(v)).value, name))
    ensures GetField(Document(v), name).Err? ==> DecodeRoot(Document(v)).Err?
  {
    GetFieldFinds(v, name);
    RoundTrip(v);
    if v.Object? {
      FieldIsShallower(v.fields, name);
    }
  }

  lemma {:induction false} FieldIsShallower(fields: seq<Field>, name: Text)
    ensures FirstField(fields, name).Some? ==>
              fields != [] && Depth(FirstField(fields, name).value) <= FieldsDepth(fields)
  {
    if fields != [] {
      FieldIsShallower(fields[1..], name);
    }
  }

  // ---------------------------------------------------------------- arbitrary bytes

  /** On any bytes at all, cyclic offsets included, decoding ends, and what it accepts is never
      nested beyond the cap. */
  lemma {:induction false} DecodedIsShallow(bytes: seq<Byte>, poolOff: nat, off: nat, depth: nat)
    ensures var r := DecodeAt(bytes, poolOff, off, depth);
            r.Ok? ==> depth + Depth(r.value) <= MAX_DEPTH
    decreases MAX_DEPTH + 1 - depth, 1
  {
    var r := DecodeAt(bytes, poolOff, off, depth);
    if r.Ok? && r.value.Object? {
      DecodedFieldsAreShallow(bytes, poolOff, off + 5, U32At(bytes, off + 1), depth);
    } else if r.Ok? && r.value.Array? {
      DecodedItemsAreShallow(bytes, poolOff, off + 5, U32At(bytes, off + 1), depth);
    }
  }

  lemma {:induction false} DecodedFieldsAreShallow(bytes: seq<Byte>, poolOff: nat, entry: nat, count: nat, depth: nat)
    requires depth <= MAX_DEPTH
    ensures var r := DecodeFields(bytes, poolOff, entry, count, depth);
            r.Ok? && r.value != [] ==> depth + 1 + FieldsDepth(r.value) <= MAX_DEPTH
    decreases MAX_DEPTH + 1 - depth, 0, count
  {
    var r := DecodeFields(bytes, poolOff, entry, count, depth);
    if r.Ok? && r.value != [] {
      assert DecodeField(bytes, poolOff, entry, depth) == Ok(r.value[0]);
      DecodedIsShallow(bytes, poolOff, U32At(bytes, entry + 4), depth + 1);
      DecodedFieldsAreShallow(bytes, poolOff, entry + 8, count - 1, depth);
      assert r.value[1..] == DecodeFields(bytes, poolOff, entry + 8, count - 1, depth).value;
    }
  }

  lemma {:induction false} DecodedItemsAreShallow(bytes: seq<Byte>, poolOff: nat, entry: nat, count: nat, depth: nat)
    requires depth <= MAX_DEPTH
    ensures var r := DecodeItems(bytes, poolOff, entry, count, depth);
            r.Ok? && r.value != [] ==> depth + 1 + ItemsDepth(r.value) <= MAX_DEPTH
    decreases MAX_DEPTH + 1 - depth, 0, count
  {
    var r := DecodeItems(bytes, poolOff, entry, count, depth);
    if r.Ok? && r.value != [] {
      DecodedIsShallow(bytes, poolOff, U32At(bytes, entry), depth + 1);
      DecodedItemsAreShallow(bytes, poolOff, entry + 4, count - 1, depth);
      assert r.value[1..] == DecodeItems(bytes, poolOff, entry + 4, count - 1, depth).value;
    }
  }
}
