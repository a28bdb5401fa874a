/** CenDoc: the binary document layout, as values.

    `Emit` says what bytes a value occupies when it starts at a given offset and a given
    list of strings is already interned; it computes offset tables from sizes and patches
    nothing.  `DecodeAt` follows absolute offsets.  The imperative encoder and decoder are
    proved against these two in `CenDocCodec`. */
module CenDocFormat {
  import opened Wrappers
  import opened Bytes

  /** The UTF-8 bytes of a Rust `String`. */
  type Text = seq<Byte>

  datatype Field = Field(name: Text, value: DocValue)

  datatype DocValue =
    | Null
    | Bool(b: bool)
    | Int(i: I64)
    | Float(bits: U64)
    | Str(s: Text)
    | Blob(data: seq<Byte>)
    | Object(fields: seq<Field>)
    | Array(items: seq<DocValue>)
  {
    function Kind(): Byte {
      match this
      case Null => 0
      case Bool(_) => 1
      case Int(_) => 2
      case Float(_) => 3
      case Str(_) => 4
      case Blob(_) => 5
      case Object(_) => 6
      case Array(_) => 7
    }
  }

  datatype DecodeError =
    | TooDeep | BadHeader | BadOffset | Truncated | BadStringOffset | BadPoolOffset

  const MAX_DEPTH: nat := 256
  const HEADER_SIZE: nat := 20
  const MAGIC: seq<Byte> := [72, 69, 88, 68]  // "HEXD"

  // ---------------------------------------------------------------- nesting depth

  /** How many containers the decoder has to enter below `v`. */
  function Depth(v: DocValue): nat {
    match v
    case Object(fields) => if fields == [] then 0 else 1 + FieldsDepth(fields)
    case Array(items) => if items == [] then 0 else 1 + ItemsDepth(items)
    case _ => 0
  }

  function FieldsDepth(fields: seq<Field>): nat {
    if fields == [] then 0 else Max(Depth(fields[0].value), FieldsDepth(fields[1..]))
  }

  function ItemsDepth(items: seq<DocValue>): nat {
    if items == [] then 0 else Max(Depth(items[0]), ItemsDepth(items[1..]))
  }

  function Max(a: nat, b: nat): nat { if a < b then b else a }

  // ---------------------------------------------------------------- string pool

  /** Interned strings in pool order, each a u32 length followed by its bytes. */
  function PoolBytes(names: seq<Text>): seq<Byte> {
    if names == [] then [] else U32Bytes(|names[0]|) + names[0] + PoolBytes(names[1..])
  }

  predicate Interned(names: seq<Text>, s: Text) {
    names != [] && (names[0] == s || Interned(names[1..], s))
  }

  function Intern(names: seq<Text>, s: Text): seq<Text> {
    if Interned(names, s) then names else names + [s]
  }

  /** The pool offset that stands for `s`: where its first occurrence starts. */
  function IdOf(names: seq<Text>, s: Text): nat {
    if names == [] || names[0] == s then 0 else 4 + |names[0]| + IdOf(names[1..], s)
  }

  // ---------------------------------------------------------------- layout

  /** The bytes of a value and the strings interned once it is written. */
  datatype Emitted = Emitted(bytes: seq<Byte>, names: seq<Text>)

  /** An offset table, the values it points to, and the strings interned after them. */
  datatype Laid = Laid(table: seq<Byte>, values: seq<Byte>, names: seq<Text>)

  function Container(kind: Byte, n: nat, laid: Laid): Emitted {
    Emitted([kind] + (U32Bytes(n) + (laid.table + laid.values)), laid.names)
  }

  /** The bytes of `v` placed at absolute offset `at`, with `names` already interned. */
  function Emit(v: DocValue, at: nat, names: seq<Text>): Emitted
    decreases v
  {
    match v
    case Null => Emitted([0], names)
    case Bool(b) => Emitted([1, if b then 1 else 0], names)
    case Int(i) => Emitted([2] + U64Bytes(I64Bits(i)), names)
    case Float(bits) => Emitted([3] + U64Bytes(bits), names)
    case Str(s) => Emitted([4] + U32Bytes(IdOf(Intern(names, s), s)), Intern(names, s))
    case Blob(data) => Emitted([5] + (U32Bytes(|data|) + data), names)
    case Object(fields) => Container(6, |fields|, EmitFields(fields, at + 5 + 8 * |fields|, names))
    case Array(items) => Container(7, |items|, EmitItems(items, at + 5 + 4 * |items|, names))
  }

  /** Field names are interned before their values; each value starts where the last one ended. */
  function EmitFields(fields: seq<Field>, at: nat, names: seq<Text>): (r: Laid)
    ensures |r.table| == 8 * |fields|
    decreases fields
  {
    if fields == [] then Laid([], [], names)
    else
      var names1 := Intern(names, fields[0].name);
      var first := Emit(fields[0].value, at, names1);
      var rest := EmitFields(fields[1..], at + |first.bytes|, first.names);
      Laid(U32Bytes(IdOf(names1, fields[0].name)) + U32Bytes(at) + rest.table,
           first.bytes + rest.values, rest.names)
  }

  function EmitItems(items: seq<DocValue>, at: nat, names: seq<Text>): (r: Laid)
    ensures |r.table| == 4 * |items|
    decreases items
  {
    if items == [] then Laid([], [], names)
    else
      var first := Emit(items[0], at, names);
      var rest := EmitItems(items[1..], at + |first.bytes|, first.names);
      Laid(U32Bytes(at) + rest.table, first.bytes + rest.values, rest.names)
  }

  function FieldCount(v: DocValue): nat {
    match v
    case Object(fields) => |fields|
    case Array(items) => |items|
    case _ => 0
  }

  function HeaderBytes(kind: Byte, fieldCount: nat, rootOff: nat, poolOff: nat): (s: seq<Byte>)
    ensures |s| == HEADER_SIZE
  {
    MAGIC + [kind, 0, 0, 0] + U32Bytes(fieldCount) + U32Bytes(rootOff) + U32Bytes(poolOff)
  }

  /** A whole document: header, root value, string pool. */
  function Document(v: DocValue): seq<Byte> {
    var root := Emit(v, HEADER_SIZE, []);
    HeaderBytes(v.Kind(), FieldCount(v), HEADER_SIZE, PoolStart(v)) + root.bytes + PoolBytes(root.names)
  }

  function PoolStart(v: DocValue): nat { HEADER_SIZE + |Emit(v, HEADER_SIZE, []).bytes| }

  // ---------------------------------------------------------------- reading

  datatype Header = Header(rootKind: Byte, fieldCount: nat, rootOff: nat, poolOff: nat)

  function ParseHeader(bytes: seq<Byte>): Result<Header, DecodeError> {
    if |bytes| < HEADER_SIZE || bytes[0..4] != MAGIC then Err(BadHeader)
    else Ok(Header(bytes[4], U32At(bytes, 8), U32At(bytes, 12), U32At(bytes, 16)))
  }

  function ReadString(bytes: seq<Byte>, poolOff: nat, offset: nat): Result<Text, DecodeError> {
    if poolOff >= |bytes| then Err(BadPoolOffset)
    else
      var abs := poolOff + offset;
      if abs + 4 > |bytes| then Err(BadStringOffset)
      else
        var len := U32At(bytes, abs);
        if abs + 4 + len > |bytes| then Err(Truncated) else Ok(bytes[abs + 4..abs + 4 + len])
  }

  /** The decoder.  Offsets come from the bytes and may form cycles; `depth` bounds them. */
  function DecodeAt(bytes: seq<Byte>, poolOff: nat, off: nat, depth: nat): Result<DocValue, DecodeError>
    decreases MAX_DEPTH + 1 - depth, 3
  {
    if depth > MAX_DEPTH then Err(TooDeep)
    else if off >= |bytes| then Err(BadOffset)
    else
      var kind, body := bytes[off], off + 1;
      if kind == 1 then
        if body >= |bytes| then Err(Truncated) else Ok(Bool(bytes[body] != 0))
      else if kind == 2 then
        if body + 8 > |bytes| then Err(Truncated) else Ok(Int(BitsI64(U64At(bytes, body))))
      else if kind == 3 then
        if body + 8 > |bytes| then Err(Truncated) else Ok(Float(U64At(bytes, body)))
      else if 4 <= kind <= 7 then
        if body + 4 > |bytes| then Err(Truncated)
        else DecodeSized(bytes, poolOff, kind, body + 4, U32At(bytes, body), depth)
      else Ok(Null)
  }

  /** The kinds whose body starts with a u32 `n`: a string id, a byte count or an element count. */
  function DecodeSized(bytes: seq<Byte>, poolOff: nat, kind: Byte, at: nat, n: nat, depth: nat)
    : Result<DocValue, DecodeError>
    requires depth <= MAX_DEPTH && at <= |bytes| && 4 <= kind <= 7
    decreases MAX_DEPTH + 1 - depth, 2
  {
    if kind == 4 then
      var s := ReadString(bytes, poolOff, n);
      if s.Ok? then Ok(Str(s.value)) else Err(s.error)
    else if kind == 5 then
      if at + n > |bytes| then Err(Truncated) else Ok(Blob(bytes[at..at + n]))
    else if kind == 6 then
      var fields := DecodeFields(bytes, poolOff, at, n, depth);
      if fields.Ok? then Ok(Object(fields.value)) else Err(fields.error)
    else
      var items := DecodeItems(bytes, poolOff, at, n, depth);
      if items.Ok? then Ok(Array(items.value)) else Err(items.error)
  }

  function DecodeFields(bytes: seq<Byte>, poolOff: nat, entry: nat, count: nat, depth: nat)
    : Result<seq<Field>, DecodeError>
    requires depth <= MAX_DEPTH
    decreases MAX_DEPTH + 1 - depth, 1, count
  {
    if count == 0 then Ok([])
    else
      var field := DecodeField(bytes, poolOff, entry, depth);
      if field.Err? then Err(field.error)
      else
        var rest := DecodeFields(bytes, poolOff, entry + 8, count - 1, depth);
        if rest.Err? then rest else Ok([field.value] + rest.value)
  }

  function DecodeField(bytes: seq<Byte>, poolOff: nat, entry: nat, depth: nat): Result<Field, DecodeError>
    requires depth <= MAX_DEPTH
    decreases MAX_DEPTH + 1 - depth, 0
  {
    if entry + 8 > |bytes| then Err(Truncated)
    else
      var name := ReadString(bytes, poolOff, U32At(bytes, entry));
      if name.Err? then Err(name.error)
      else
        var val := DecodeAt(bytes, poolOff, U32At(bytes, entry + 4), depth + 1);
        if val.Err? then Err(val.error) else Ok(Field(name.value, val.value))
  }

  function DecodeItems(bytes: seq<Byte>, poolOff: nat, entry: nat, count: nat, depth: nat)
    : Result<seq<DocValue>, DecodeError>
    requires depth <= MAX_DEPTH
    decreases MAX_DEPTH + 1 - depth, 1, count
  {
    if count == 0 then Ok([])
    else if entry + 4 > |bytes| then Err(Truncated)
    else
      var val := DecodeAt(bytes, poolOff, U32At(bytes, entry), depth + 1);
      if val.Err? then Err(val.error)
      else
        var rest := DecodeItems(bytes, poolOff, entry + 4, count - 1, depth);
        if rest.Err? then rest else Ok([val.value] + rest.value)
  }

  function DecodeRoot(bytes: seq<Byte>): Result<DocValue, DecodeError> {
    var h := ParseHeader(bytes);
    if h.Err? then Err(h.error) else DecodeAt(bytes, h.value.poolOff, h.value.rootOff, 0)
  }

  /** Point access: scan the root's offset table for `name`, decode only that value. */
  function GetField(bytes: seq<Byte>, name: Text): Result<Option<DocValue>, DecodeError> {
    var h := ParseHeader(bytes);
    if h.Err? then Err(h.error)
    else if h.value.rootKind != 6 then Ok(None)
    else
      var found := FindField(bytes, h.value.poolOff, h.value.rootOff + 5, h.value.fieldCount, name);
      if found.Err? then Err(found.error)
      else if found.value.None? then Ok(None)
      else
        var val := DecodeAt(bytes, h.value.poolOff, found.value.value, 0);
        if val.Err? then Err(val.error) else Ok(Some(val.value))
  }

  /** The value offset of the first table entry called `name`. */
  function FindField(bytes: seq<Byte>, poolOff: nat, entry: nat, count: nat, name: Text)
    : Result<Option<nat>, DecodeError>
    decreases count, 1
  {
    if count == 0 then Ok(None) else FindFrom(bytes, poolOff, entry, count, name)
  }

  /** The same, with the entry at `entry` still to be looked at. */
  function FindFrom(bytes: seq<Byte>, poolOff: nat, entry: nat, count: nat, name: Text)
    : Result<Option<nat>, DecodeError>
    requires count > 0
    decreases count, 0
  {
    if entry + 8 > |bytes| then Err(Truncated)
    else
      var found := ReadString(bytes, poolOff, U32At(bytes, entry));
      if found.Err? then Err(found.error)
      else if found.value == name then Ok(Some(U32At(bytes, entry + 4)))
      else FindField(bytes, poolOff, entry + 8, count - 1, name)
  }
}
