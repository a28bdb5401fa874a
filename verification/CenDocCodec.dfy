/** The encoder that appends, reserves and patches, and the decoder that loops over offset
    tables, proved against the layout of `CenDocFormat`. */
module CenDocCodec {
  import opened Wrappers
  import opened Bytes
  import opened CenDocFormat
  import CenDocRoundTrip

  /** A u32 offset pair per table entry, in the order the entries were recorded. */
  function EntryBytes(entries: seq<(nat, nat)>): (s: seq<Byte>)
    ensures |s| == 8 * |entries|
  {
    if entries == [] then []
    else
      var last := entries[|entries| - 1];
      EntryBytes(entries[..|entries| - 1]) + U32Bytes(last.0) + U32Bytes(last.1)
  }

  function OffsetBytes(offsets: seq<nat>): (s: seq<Byte>)
    ensures |s| == 4 * |offsets|
  {
    if offsets == [] then []
    else OffsetBytes(offsets[..|offsets| - 1]) + U32Bytes(offsets[|offsets| - 1])
  }

  function Zeros(n: nat): (s: seq<Byte>)
    ensures |s| == n
  {
    seq(n, i => 0)
  }

  lemma {:induction false} PoolAppend(names: seq<Text>, s: Text)
    ensures PoolBytes(names + [s]) == PoolBytes(names) + (U32Bytes(|s|) + s)
  {
    if names == [] {
      assert PoolBytes([]) == [];
    } else {
      PoolAppend(names[1..], s);
      assert (names + [s])[1..] == names[1..] + [s];
    }
  }

  lemma {:induction false} NewId(names: seq<Text>, s: Text)
    requires !Interned(names, s)
    ensures Interned(names + [s], s) && IdOf(names + [s], s) == |PoolBytes(names)|
  {
    if names == [] {
      assert PoolBytes([]) == [];
    } else {
      NewId(names[1..], s);
      assert (names + [s])[1..] == names[1..] + [s];
    }
  }

  lemma Assoc(a: seq<Byte>, b: seq<Byte>, c: seq<Byte>)
    ensures (a + b) + c == a + (b + c)
  {
  }

  lemma Assemble(start: seq<Byte>, count: seq<Byte>, table: seq<Byte>, values: seq<Byte>)
    ensures start + count + table + values == start + (count + (table + values))
  {
    Assoc(start + count, table, values);
    Assoc(start, count, table + values);
  }

  lemma EntryAppend(entries: seq<(nat, nat)>, id: nat, off: nat, rest: seq<Byte>)
    ensures EntryBytes(entries + [(id % U32_RANGE, off % U32_RANGE)]) + rest ==
            EntryBytes(entries) + (U32Bytes(id) + U32Bytes(off) + rest)
  {
    TruncatedBytes(id);
    TruncatedBytes(off);
    var e := (id % U32_RANGE, off % U32_RANGE);
    assert (entries + [e])[..|entries|] == entries;
  }

  lemma OffsetAppend(offsets: seq<nat>, off: nat, rest: seq<Byte>)
    ensures OffsetBytes(offsets + [off % U32_RANGE]) + rest == OffsetBytes(offsets) + (U32Bytes(off) + rest)
  {
    TruncatedBytes(off);
    assert (offsets + [off % U32_RANGE])[..|offsets|] == offsets;
  }

  /** What is already written plus what the remaining fields still add makes up the whole. */
  ghost predicate FieldsLeft(whole: Laid, start: seq<Byte>, left: seq<Field>,
                             entries: seq<(nat, nat)>, out: seq<Byte>, names: seq<Text>)
  {
    var rest := EmitFields(left, |out|, names);
    Written(whole, start, entries, out, rest) && rest.names == whole.names
  }

  lemma FieldsLeftIntro(whole: Laid, start: seq<Byte>, left: seq<Field>,
                        entries: seq<(nat, nat)>, out: seq<Byte>, names: seq<Text>, rest: Laid)
    requires rest == EmitFields(left, |out|, names)
    requires Written(whole, start, entries, out, rest) && rest.names == whole.names
    ensures FieldsLeft(whole, start, left, entries, out, names)
  {
  }

  /** Encoding one more field keeps the balance. */
  lemma FieldsLeftStep(whole: Laid, start: seq<Byte>, left: seq<Field>, entries: seq<(nat, nat)>,
                       out: seq<Byte>, names: seq<Text>) returns (id: nat, first: Emitted)
    requires left != [] && FieldsLeft(whole, start, left, entries, out, names)
    ensures var names1 := Intern(names, left[0].name);
            id == IdOf(names1, left[0].name) && first == Emit(left[0].value, |out|, names1)
    ensures FieldsLeft(whole, start, left[1..], entries + [(id % U32_RANGE, |out| % U32_RANGE)],
                       out + first.bytes, first.names)
  {
    var rest: Laid;
    id, first, rest := CenDocRoundTrip.UnfoldFields(left, |out|, names);
    WrittenStep(whole, start, entries, out, id, first.bytes, rest);
    FieldsLeftIntro(whole, start, left[1..], entries + [(id % U32_RANGE, |out| % U32_RANGE)],
                    out + first.bytes, first.names, rest);
  }

  ghost predicate Written(whole: Laid, start: seq<Byte>, entries: seq<(nat, nat)>, out: seq<Byte>, rest: Laid) {
    EntryBytes(entries) + rest.table == whole.table && out + rest.values == start + whole.values
  }

  lemma WrittenStep(whole: Laid, start: seq<Byte>, entries: seq<(nat, nat)>, out: seq<Byte>,
                    id: nat, first: seq<Byte>, rest: Laid)
    requires EntryBytes(entries) + (U32Bytes(id) + U32Bytes(|out|) + rest.table) == whole.table
    requires out + (first + rest.values) == start + whole.values
    ensures Written(whole, start, entries + [(id % U32_RANGE, |out| % U32_RANGE)], out + first, rest)
  {
    EntryAppend(entries, id, |out|, rest.table);
    Assoc(out, first, rest.values);
  }

  ghost predicate ItemsLeft(whole: Laid, start: seq<Byte>, left: seq<DocValue>,
                            offsets: seq<nat>, out: seq<Byte>, names: seq<Text>)
  {
    var rest := EmitItems(left, |out|, names);
    && OffsetBytes(offsets) + rest.table == whole.table
    && out + rest.values == start + whole.values
    && rest.names == whole.names
  }

  lemma ItemsLeftIntro(whole: Laid, start: seq<Byte>, left: seq<DocValue>,
                       offsets: seq<nat>, out: seq<Byte>, names: seq<Text>, rest: Laid)
    requires rest == EmitItems(left, |out|, names)
    requires OffsetBytes(offsets) + rest.table == whole.table
    requires out + rest.values == start + whole.values && rest.names == whole.names
    ensures ItemsLeft(whole, start, left, offsets, out, names)
  {
  }

  lemma ItemsLeftStep(whole: Laid, start: seq<Byte>, left: seq<DocValue>, offsets: seq<nat>,
                      out: seq<Byte>, names: seq<Text>) returns (first: Emitted)
    requires left != [] && ItemsLeft(whole, start, left, offsets, out, names)
    ensures first == Emit(left[0], |out|, names)
    ensures ItemsLeft(whole, start, left[1..], offsets + [|out| % U32_RANGE], out + first.bytes, first.names)
  {
    var rest: Laid;
    first, rest := CenDocRoundTrip.UnfoldItems(left, |out|, names);
    OffsetAppend(offsets, |out|, rest.table);
    Assoc(out, first.bytes, rest.values);
    ItemsLeftIntro(whole, start, left[1..], offsets + [|out| % U32_RANGE], out + first.bytes, first.names, rest);
  }

  lemma ZerosOverwritten(done: seq<Byte>, n: nat, values: seq<Byte>, x: nat)
    requires n >= 4
    ensures var out := done + Zeros(n) + values;
            out[..|done|] + U32Bytes(x) + out[|done| + 4..] == done + U32Bytes(x) + Zeros(n - 4) + values
  {
    var out := done + Zeros(n) + values;
    assert out[..|done|] == done;
    assert out[|done| + 4..] == Zeros(n - 4) + values;
  }

  lemma EntriesUpTo(entries: seq<(nat, nat)>, i: nat, before: seq<Byte>)
    requires i < |entries|
    ensures before + EntryBytes(entries[..i + 1]) ==
            before + EntryBytes(entries[..i]) + U32Bytes(entries[i].0) + U32Bytes(entries[i].1)
  {
    assert entries[..i + 1][..i] == entries[..i];
  }

  lemma OffsetsUpTo(offsets: seq<nat>, i: nat, before: seq<Byte>)
    requires i < |offsets|
    ensures before + OffsetBytes(offsets[..i + 1]) == before + OffsetBytes(offsets[..i]) + U32Bytes(offsets[i])
  {
    assert offsets[..i + 1][..i] == offsets[..i];
  }

  lemma ObjectEmitted(fields: seq<Field>, off: nat, names: seq<Text>, laid: Laid)
    requires laid == EmitFields(fields, off + 5 + 8 * |fields|, names)
    ensures Emit(Object(fields), off, names) ==
            Emitted([6] + (U32Bytes(|fields|) + (laid.table + laid.values)), laid.names)
  {
  }

  lemma ArrayEmitted(items: seq<DocValue>, off: nat, names: seq<Text>, laid: Laid)
    requires laid == EmitItems(items, off + 5 + 4 * |items|, names)
    ensures Emit(Array(items), off, names) ==
            Emitted([7] + (U32Bytes(|items|) + (laid.table + laid.values)), laid.names)
  {
  }

  /** The pool holds each interned string once and the map knows where. */
  ghost predicate PoolInvariant(strings: map<Text, nat>, pool: seq<Byte>, names: seq<Text>) {
    && NoDuplicates(names)
    && pool == PoolBytes(names)
    && (forall s :: s in strings <==> s in names)
    && (forall s :: s in strings ==> strings[s] == IdOf(names, s) % U32_RANGE)
  }

  lemma PoolInvariantAppend(strings: map<Text, nat>, pool: seq<Byte>, names: seq<Text>, s: Text)
    requires PoolInvariant(strings, pool, names) && s !in strings
    ensures PoolInvariant(strings[s := |pool| % U32_RANGE], pool + (U32Bytes(|s|) + s), names + [s])
    ensures Intern(names, s) == names + [s] && IdOf(names + [s], s) == |pool|
  {
    CenDocRoundTrip.InternedMeans(names, s);
    PoolAppend(names, s);
    NewId(names, s);
    forall t | t in names ensures IdOf(names + [s], t) == IdOf(names, t) {
      CenDocRoundTrip.InternedMeans(names, t);
      CenDocRoundTrip.IdStable(names, names + [s], t);
    }
  }

  predicate NoDuplicates(names: seq<Text>) {
    forall i, j :: 0 <= i < j < |names| ==> names[i] != names[j]
  }

  class CenDocBuilder {
    var out: seq<Byte>
    var strings: map<Text, nat>
    var stringPool: seq<Byte>
    ghost var names: seq<Text>

    ghost predicate Valid()
      reads this
    {
      PoolInvariant(strings, stringPool, names)
    }

    constructor ()
      ensures Valid() && out == [] && names == []
    {
      out, strings, stringPool := [], map[], [];
      names := [];
    }

    method InternString(s: Text) returns (id: nat)
      requires Valid()
      modifies this`strings, this`stringPool, this`names
      ensures Valid() && names == Intern(old(names), s)
      ensures id == IdOf(names, s) % U32_RANGE
    {
      if s in strings {
        CenDocRoundTrip.InternedMeans(names, s);
        return strings[s];
      }
      PoolInvariantAppend(strings, stringPool, names, s);
      id := |stringPool| % U32_RANGE;
      Assoc(stringPool, U32Bytes(|s|), s);
      stringPool := stringPool + U32Bytes(|s|);
      stringPool := stringPool + s;
      strings := strings[s := id];
      names := names + [s];
    }

    method Patch(pos: nat, x: nat)
      requires pos + 4 <= |out|
      modifies this`out
      ensures out == old(out)[..pos] + U32Bytes(x) + old(out)[pos + 4..]
    {
      out := out[..pos] + U32Bytes(x) + out[pos + 4..];
    }

    /** Reserving, encoding and patching leaves exactly the laid-out bytes behind the old ones. */
    method EncodeValue(value: DocValue) returns (off: nat)
      requires Valid()
      modifies this
      ensures Valid() && off == |old(out)|
      ensures out == old(out) + Emit(value, |old(out)|, old(names)).bytes
      ensures names == Emit(value, |old(out)|, old(names)).names
      decreases value, 1
    {
      off := |out|;
      ghost var body := EncodeBody(value, off);
      Assoc(old(out), [value.Kind()], body);
    }

    /** The kind tag and what follows it. */
    method EncodeBody(value: DocValue, ghost off: nat) returns (ghost body: seq<Byte>)
      requires Valid() && off == |out|
      modifies this
      ensures Valid()
      ensures out == old(out) + [value.Kind()] + body
      ensures Emit(value, off, old(names)) == Emitted([value.Kind()] + body, names)
      decreases value, 0
    {
      out := out + [value.Kind()];
      match value
      case Null =>
        body := [];
      case Bool(b) =>
        body := [if b then 1 else 0];
        out := out + [if b then 1 else 0];
      case Int(i) =>
        body := U64Bytes(I64Bits(i));
        out := out + U64Bytes(I64Bits(i));
      case Float(bits) =>
        body := U64Bytes(bits);
        out := out + U64Bytes(bits);
      case Str(s) =>
        var id := InternString(s);
        TruncatedBytes(IdOf(names, s));
        body := U32Bytes(id);
        out := out + U32Bytes(id);
      case Blob(data) =>
        body := U32Bytes(|data|) + data;
        Assoc(out, U32Bytes(|data|), data);
        out := out + U32Bytes(|data|);
        out := out + data;
      case Object(fields) =>
        body := EncodeObject(fields, off);
      case Array(items) =>
        body := EncodeArray(items, off);
    }

    /** The object arm of the match: count, reserved table, values, then the table itself. */
    method EncodeObject(fields: seq<Field>, ghost off: nat) returns (ghost body: seq<Byte>)
      requires Valid() && |out| == off + 1
      modifies this
      ensures Valid()
      ensures out == old(out) + body
      ensures Emit(Object(fields), off, old(names)) == Emitted([6] + body, names)
      decreases fields, 3
    {
      out := out + U32Bytes(|fields|);
      var tableOff := |out|;
      ghost var before := out;
      out := out + Zeros(8 * |fields|);
      ghost var laid := EmitFields(fields, |out|, names);
      var valueOffsets := EncodeFieldValues(fields);
      WriteFieldTable(tableOff, valueOffsets, before, laid.values);
      body := U32Bytes(|fields|) + (laid.table + laid.values);
      ObjectEmitted(fields, off, old(names), laid);
      Assemble(old(out), U32Bytes(|fields|), laid.table, laid.values);
    }

    /** Patching the reserved entries one by one turns the zeros into the table. */
    method WriteFieldTable(tableOff: nat, valueOffsets: seq<(nat, nat)>, ghost before: seq<Byte>, ghost values: seq<Byte>)
      requires tableOff == |before|
      requires out == before + Zeros(8 * |valueOffsets|) + values
      modifies this`out
      ensures out == before + EntryBytes(valueOffsets) + values
    {
      var i := 0;
      while i < |valueOffsets|
        invariant 0 <= i <= |valueOffsets|
        invariant out == before + EntryBytes(valueOffsets[..i]) + Zeros(8 * (|valueOffsets| - i)) + values
      {
        var pos := tableOff + i * 8;
        ghost var done := before + EntryBytes(valueOffsets[..i]);
        PatchEntry(pos, valueOffsets[i], done, |valueOffsets| - i, values);
        EntriesUpTo(valueOffsets, i, before);
        i := i + 1;
      }
      assert valueOffsets[..i] == valueOffsets;
      assert Zeros(0) == [];
    }

    method PatchEntry(pos: nat, entry: (nat, nat), ghost done: seq<Byte>, ghost left: nat, ghost values: seq<Byte>)
      requires left > 0 && pos == |done| && out == done + Zeros(8 * left) + values
      modifies this`out
      ensures out == done + U32Bytes(entry.0) + U32Bytes(entry.1) + Zeros(8 * (left - 1)) + values
    {
      ZerosOverwritten(done, 8 * left, values, entry.0);
      Patch(pos, entry.0);
      ZerosOverwritten(done + U32Bytes(entry.0), 8 * left - 4, values, entry.1);
      Patch(pos + 4, entry.1);
    }

    method EncodeFieldValues(fields: seq<Field>) returns (valueOffsets: seq<(nat, nat)>)
      requires Valid()
      modifies this
      ensures Valid()
      ensures var laid := EmitFields(fields, |old(out)|, old(names));
              && out == old(out) + laid.values && names == laid.names
              && |valueOffsets| == |fields| && EntryBytes(valueOffsets) == laid.table
      decreases fields, 2
    {
      valueOffsets := [];
      ghost var whole := EmitFields(fields, |out|, names);
      ghost var left := fields;
      var i := 0;
      while i < |fields|
        invariant 0 <= i <= |fields| && Valid() && |valueOffsets| == i && left == fields[i..]
        invariant FieldsLeft(whole, old(out), left, valueOffsets, out, names)
      {
        ghost var _, _ := FieldsLeftStep(whole, old(out), left, valueOffsets, out, names);
        var nameId, valOff := EncodeField(fields[i]);
        valueOffsets := valueOffsets + [(nameId, valOff)];
        left := left[1..];
        i := i + 1;
      }
    }

    method EncodeField(field: Field) returns (nameId: nat, valOff: nat)
      requires Valid()
      modifies this
      ensures Valid()
      ensures var names1 := Intern(old(names), field.name);
              var first := Emit(field.value, |old(out)|, names1);
              && out == old(out) + first.bytes && names == first.names
              && nameId == IdOf(names1, field.name) % U32_RANGE && valOff == |old(out)| % U32_RANGE
      decreases field, 0
    {
      nameId := InternString(field.name);
      var off := EncodeValue(field.value);
      valOff := off % U32_RANGE;
    }

    method EncodeArray(items: seq<DocValue>, ghost off: nat) returns (ghost body: seq<Byte>)
      requires Valid() && |out| == off + 1
      modifies this
      ensures Valid()
      ensures out == old(out) + body
      ensures Emit(Array(items), off, old(names)) == Emitted([7] + body, names)
      decreases items, 3
    {
      out := out + U32Bytes(|items|);
      var tableOff := |out|;
      ghost var before := out;
      out := out + Zeros(4 * |items|);
      ghost var laid := EmitItems(items, |out|, names);
      var valueOffsets := EncodeItemValues(items);
      WriteItemTable(tableOff, valueOffsets, before, laid.values);
      body := U32Bytes(|items|) + (laid.table + laid.values);
      ArrayEmitted(items, off, old(names), laid);
      Assemble(old(out), U32Bytes(|items|), laid.table, laid.values);
    }

    method WriteItemTable(tableOff: nat, valueOffsets: seq<nat>, ghost before: seq<Byte>, ghost values: seq<Byte>)
      requires tableOff == |before|
      requires out == before + Zeros(4 * |valueOffsets|) + values
      modifies this`out
      ensures out == before + OffsetBytes(valueOffsets) + values
    {
      var i := 0;
      while i < |valueOffsets|
        invariant 0 <= i <= |valueOffsets|
        invariant out == before + OffsetBytes(valueOffsets[..i]) + Zeros(4 * (|valueOffsets| - i)) + values
      {
        var pos := tableOff + i * 4;
        ghost var done := before + OffsetBytes(valueOffsets[..i]);
        PatchOffset(pos, valueOffsets[i], done, |valueOffsets| - i, values);
        OffsetsUpTo(valueOffsets, i, before);
        i := i + 1;
      }
      assert valueOffsets[..i] == valueOffsets;
      assert Zeros(0) == [];
    }

    method PatchOffset(pos: nat, off: nat, ghost done: seq<Byte>, ghost left: nat, ghost values: seq<Byte>)
      requires left > 0 && pos == |done| && out == done + Zeros(4 * left) + values
      modifies this`out
      ensures out == done + U32Bytes(off) + Zeros(4 * (left - 1)) + values
    {
      ZerosOverwritten(done, 4 * left, values, off);
      Patch(pos, off);
    }

    method EncodeItemValues(items: seq<DocValue>) returns (valueOffsets: seq<nat>)
      requires Valid()
      modifies this
      ensures Valid()
      ensures var laid := EmitItems(items, |old(out)|, old(names));
              && out == old(out) + laid.values && names == laid.names
              && |valueOffsets| == |items| && OffsetBytes(valueOffsets) == laid.table
      decreases items, 2
    {
      valueOffsets := [];
      ghost var whole := EmitItems(items, |out|, names);
      ghost var left := items;
      var i := 0;
      while i < |items|
        invariant 0 <= i <= |items| && Valid() && |valueOffsets| == i && left == items[i..]
        invariant ItemsLeft(whole, old(out), left, valueOffsets, out, names)
      {
        ghost var _ := ItemsLeftStep(whole, old(out), left, valueOffsets, out, names);
        var valOff := EncodeValue(items[i]);
        valueOffsets := valueOffsets + [valOff % U32_RANGE];
        left := left[1..];
        i := i + 1;
      }
    }
  }

  method Encode(value: DocValue) returns (bytes: seq<Byte>)
    ensures bytes == Document(value)
  {
    var builder := new CenDocBuilder();
    builder.out := builder.out + Zeros(HEADER_SIZE);
    var rootOff := builder.EncodeValue(value);
    ghost var root := Emit(value, HEADER_SIZE, []);
    var poolOff := |builder.out|;
    builder.out := builder.out + builder.stringPool;
    TruncatedBytes(poolOff);
    var header := HeaderBytes(value.Kind(), FieldCount(value), rootOff, poolOff % U32_RANGE);
    HeaderPatched(header, Zeros(HEADER_SIZE), root.bytes, builder.stringPool);
    builder.out := header + builder.out[HEADER_SIZE..];
    bytes := builder.out;
  }

  lemma HeaderPatched(header: seq<Byte>, reserved: seq<Byte>, root: seq<Byte>, pool: seq<Byte>)
    requires |reserved| == HEADER_SIZE
    ensures header + ([] + reserved + root + pool)[HEADER_SIZE..] == header + root + pool
  {
  }

  // ---------------------------------------------------------------- reader

  /** Values decoded so far, put in front of what is still to come. */
  function Prepend<T>(done: seq<T>, rest: Result<seq<T>, DecodeError>): Result<seq<T>, DecodeError> {
    if rest.Err? then rest else Ok(done + rest.value)
  }

  lemma PrependOne<T>(done: seq<T>, x: T, rest: Result<seq<T>, DecodeError>)
    ensures Prepend(done, Prepend([x], rest)) == Prepend(done + [x], rest)
  {
    assert rest.Ok? ==> done + ([x] + rest.value) == done + [x] + rest.value;
  }

  /** A reader over a borrowed buffer whose header has been checked. */
  datatype CenDoc = CenDoc(bytes: seq<Byte>, header: Header) {

    method DecodeRootValue() returns (r: Result<DocValue, DecodeError>)
      requires ParseHeader(bytes) == Ok(header)
      ensures r == DecodeRoot(bytes)
    {
      r := DecodeValueAtDepth(header.rootOff, 0);
    }

    method DecodeValueAtDepth(off: nat, depth: nat) returns (r: Result<DocValue, DecodeError>)
      ensures r == DecodeAt(bytes, header.poolOff, off, depth)
      decreases MAX_DEPTH + 1 - depth, 2
    {
      if depth > MAX_DEPTH {
        return Err(TooDeep);
      }
      if off >= |bytes| {
        return Err(BadOffset);
      }
      var kind, body := bytes[off], off + 1;
      if kind == 1 {
        return if body >= |bytes| then Err(Truncated) else Ok(Bool(bytes[body] != 0));
      } else if kind == 2 {
        return if body + 8 > |bytes| then Err(Truncated) else Ok(Int(BitsI64(U64At(bytes, body))));
      } else if kind == 3 {
        return if body + 8 > |bytes| then Err(Truncated) else Ok(Float(U64At(bytes, body)));
      } else if kind < 4 || kind > 7 {
        return Ok(Null);
      } else if body + 4 > |bytes| {
        return Err(Truncated);
      }
      var n, at := U32At(bytes, body), body + 4;
      if kind == 4 {
        var s := ReadString(bytes, header.poolOff, n);
        return if s.Ok? then Ok(Str(s.value)) else Err(s.error);
      } else if kind == 5 {
        return if at + n > |bytes| then Err(Truncated) else Ok(Blob(bytes[at..at + n]));
      } else if kind == 6 {
        var fields := DecodeFieldTable(at, n, depth);
        return if fields.Ok? then Ok(Object(fields.value)) else Err(fields.error);
      } else {
        var items := DecodeItemTable(at, n, depth);
        return if items.Ok? then Ok(Array(items.value)) else Err(items.error);
      }
    }

    method DecodeFieldTable(table: nat, count: nat, depth: nat) returns (r: Result<seq<Field>, DecodeError>)
      requires depth <= MAX_DEPTH
      ensures r == DecodeFields(bytes, header.poolOff, table, count, depth)
      decreases MAX_DEPTH + 1 - depth, 1
    {
      var fields: seq<Field> := [];
      ghost var whole := DecodeFields(bytes, header.poolOff, table, count, depth);
      ghost var rest := whole;
      assert rest.Ok? ==> [] + rest.value == rest.value;
      var i := 0;
      ghost var at, left := table, count;
      while i < count
        invariant 0 <= i <= count && at == table + i * 8 && left == count - i
        invariant rest == DecodeFields(bytes, header.poolOff, at, left, depth) && Prepend(fields, rest) == whole
      {
        var entry := table + i * 8;
        var field := DecodeEntry(entry, depth);
        if field.Err? {
          return Err(field.error);
        }
        at, left := at + 8, left - 1;
        rest := DecodeFields(bytes, header.poolOff, at, left, depth);
        PrependOne(fields, field.value, rest);
        fields := fields + [field.value];
        i := i + 1;
      }
      assert fields + [] == fields;
      return Ok(fields);
    }

    method DecodeEntry(entry: nat, depth: nat) returns (r: Result<Field, DecodeError>)
      requires depth <= MAX_DEPTH
      ensures r == DecodeField(bytes, header.poolOff, entry, depth)
      decreases MAX_DEPTH + 1 - depth, 0
    {
      if entry + 8 > |bytes| {
        return Err(Truncated);
      }
      var name := ReadString(bytes, header.poolOff, U32At(bytes, entry));
      if name.Err? {
        return Err(name.error);
      }
      var val := DecodeValueAtDepth(U32At(bytes, entry + 4), depth + 1);
      return if val.Err? then Err(val.error) else Ok(Field(name.value, val.value));
    }

    method DecodeItemTable(table: nat, count: nat, depth: nat) returns (r: Result<seq<DocValue>, DecodeError>)
      requires depth <= MAX_DEPTH
      ensures r == DecodeItems(bytes, header.poolOff, table, count, depth)
      decreases MAX_DEPTH + 1 - depth, 0
    {
      var items: seq<DocValue> := [];
      ghost var whole := DecodeItems(bytes, header.poolOff, table, count, depth);
      ghost var rest := whole;
      assert rest.Ok? ==> [] + rest.value == rest.value;
      var i := 0;
      while i < count
        invariant 0 <= i <= count && rest == DecodeItems(bytes, header.poolOff, table + i * 4, count - i, depth)
        invariant Prepend(items, rest) == whole
      {
        var entry := table + i * 4;
        if entry + 4 > |bytes| {
          return Err(Truncated);
        }
        var val := DecodeValueAtDepth(U32At(bytes, entry), depth + 1);
        if val.Err? {
          return Err(val.error);
        }
        assert entry + 4 == table + (i + 1) * 4;
        rest := DecodeItems(bytes, header.poolOff, entry + 4, count - i - 1, depth);
        PrependOne(items, val.value, rest);
        items := items + [val.value];
        i := i + 1;
      }
      assert items + [] == items;
      return Ok(items);
    }

    /** Scans the root's offset table and decodes only the value it is asked for. */
    method FieldByName(name: Text) returns (r: Result<Option<DocValue>, DecodeError>)
      requires ParseHeader(bytes) == Ok(header)
      ensures r == GetField(bytes, name)
    {
      if header.rootKind != 6 {
        return Ok(None);
      }
      var found := ScanTable(header.rootOff + 5, header.fieldCount, name);
      if found.Err? {
        return Err(found.error);
      }
      if found.value.None? {
        return Ok(None);
      }
      var val := DecodeValueAtDepth(found.value.value, 0);
      return if val.Err? then Err(val.error) else Ok(Some(val.value));
    }

    method ScanTable(table: nat, count: nat, name: Text) returns (r: Result<Option<nat>, DecodeError>)
      ensures r == FindField(bytes, header.poolOff, table, count, name)
    {
      ghost var whole := FindField(bytes, header.poolOff, table, count, name);
      ghost var left := count;
      var i, entry := 0, table;
      while i < count
        invariant 0 <= i <= count && entry == table + i * 8 && left == count - i
        invariant FindField(bytes, header.poolOff, entry, left, name) == whole
      {
        r := EntryNamed(entry, left, name, whole);
        if r.Err? || r.value.Some? {
          return;
        }
        i, entry, left := i + 1, entry + 8, left - 1;
      }
      return Ok(None);
    }

    /** One step of the scan: the value offset if this entry carries the name. */
    method EntryNamed(entry: nat, ghost count: nat, name: Text, ghost whole: Result<Option<nat>, DecodeError>)
      returns (r: Result<Option<nat>, DecodeError>)
      requires count > 0 && FindFrom(bytes, header.poolOff, entry, count, name) == whole
      ensures if r.Err? || r.value.Some? then r == whole
              else FindField(bytes, header.poolOff, entry + 8, count - 1, name) == whole
    {
      if entry + 8 > |bytes| {
        return Err(Truncated);
      }
      var found := ReadString(bytes, header.poolOff, U32At(bytes, entry));
      if found.Err? {
        return Err(found.error);
      }
      return Ok(if found.value == name then Some(U32At(bytes, entry + 4)) else None);
    }
  }

  /** Writing a document and reading it back, through the code on both sides. */
  method WriteAndRead(value: DocValue) returns (r: Result<DocValue, DecodeError>)
    requires CenDocRoundTrip.Fits(value)
    ensures r == if Depth(value) <= MAX_DEPTH then Ok(value) else Err(TooDeep)
  {
    var bytes := Encode(value);
    CenDocRoundTrip.DocumentParts(value);
    CenDocRoundTrip.RoundTrip(value);
    r := CenDoc(bytes, ParseHeader(bytes).value).DecodeRootValue();
  }
}
