/** What comes back of values that are longer than 32-bit lengths can say. */
module CenDocLengths {
  import opened Wrappers
  import opened Bytes
  import opened CenDocFormat
  import opened CenDocRoundTrip

  lemma ReadLow32(bytes: seq<Byte>, off: nat, x: nat)
    requires Placed(bytes, off, U32Bytes(x))
    ensures U32At(bytes, off) == x % U32_RANGE
  {
    TruncatedBytes(x);
    ReadU32(bytes, off, x % U32_RANGE);
  }

  /** The header of any document, of whatever length, leads to the root. */
  lemma RootIsFound(v: DocValue)
    ensures var doc := Document(v);
            && |doc| >= HEADER_SIZE && ParseHeader(doc).Ok?
            && ParseHeader(doc).value.rootOff == HEADER_SIZE && ParseHeader(doc).value.poolOff == PoolStart(v) % U32_RANGE
            && Placed(doc, HEADER_SIZE, Emit(v, HEADER_SIZE, []).bytes)
            && Placed(doc, PoolStart(v), PoolBytes(Emit(v, HEADER_SIZE, []).names))
  {
    var doc, root := Document(v), Emit(v, HEADER_SIZE, []);
    var tag, a, b, c := MAGIC + [v.Kind(), 0, 0, 0], U32Bytes(FieldCount(v)), U32Bytes(HEADER_SIZE), U32Bytes(PoolStart(v));
    var head := HeaderBytes(v.Kind(), FieldCount(v), HEADER_SIZE, PoolStart(v));
    assert head == tag + (a + (b + c));
    DocumentPlaces(doc, head, root.bytes, PoolBytes(root.names));
    PlacedSplit(doc, 0, tag, a + (b + c));
    PlacedSlice(doc, 0, tag);
    assert doc[0..4] == doc[0..8][..4] == tag[..4] == MAGIC;
    PlacedSplit(doc, 8, a, b + c);
    PlacedSplit(doc, 12, b, c);
    ReadLow32(doc, 12, HEADER_SIZE);
    ReadLow32(doc, 16, PoolStart(v));
  }

  lemma RootIsDecoded(v: DocValue)
    ensures DecodeRoot(Document(v)) == DecodeAt(Document(v), PoolStart(v) % U32_RANGE, HEADER_SIZE, 0)
  {
    RootIsFound(v);
  }

  lemma LowPrefix(s: seq<Byte>)
    ensures s[..|s| % U32_RANGE] == s <==> |s| < U32_RANGE
  {
    if |s| >= U32_RANGE {
      assert |s[..|s| % U32_RANGE]| < U32_RANGE;
    }
  }

  lemma PrefixPlaced(bytes: seq<Byte>, off: nat, s: seq<Byte>, n: nat)
    requires Placed(bytes, off, s) && n <= |s|
    ensures off + n <= |bytes| && bytes[off..off + n] == s[..n]
  {
  }

  lemma BlobRead(bytes: seq<Byte>, poolOff: nat, off: nat, data: seq<Byte>)
    requires Placed(bytes, off, [5] + (U32Bytes(|data|) + data))
    ensures DecodeAt(bytes, poolOff, off, 0) == Ok(Blob(data[..|data| % U32_RANGE]))
  {
    PlacedSplit(bytes, off, [5], U32Bytes(|data|) + data);
    PlacedSplit(bytes, off + 1, U32Bytes(|data|), data);
    assert bytes[off + 0] == [5][0];
    ReadLow32(bytes, off + 1, |data|);
    PrefixPlaced(bytes, off + 5, data, |data| % U32_RANGE);
  }

  /** Of a blob only as much comes back as its 32-bit length says: all of it if and only if it is
      shorter than 4 GiB, whatever the length of the document. */
  lemma BlobExact(data: seq<Byte>)
    ensures DecodeRoot(Document(Blob(data))) == Ok(Blob(data[..|data| % U32_RANGE]))
    ensures DecodeRoot(Document(Blob(data))) == Ok(Blob(data)) <==> |data| < U32_RANGE
  {
    RootIsFound(Blob(data));
    RootIsDecoded(Blob(data));
    BlobRead(Document(Blob(data)), PoolStart(Blob(data)) % U32_RANGE, HEADER_SIZE, data);
    LowPrefix(data);
  }

  lemma StringRead(bytes: seq<Byte>, poolOff: nat, off: nat, s: Text)
    requires Placed(bytes, off, [4] + U32Bytes(0)) && Placed(bytes, poolOff, U32Bytes(|s|) + s)
    ensures DecodeAt(bytes, poolOff, off, 0) == Ok(Str(s[..|s| % U32_RANGE]))
  {
    PlacedSplit(bytes, off, [4], U32Bytes(0));
    assert bytes[off + 0] == [4][0];
    ReadLow32(bytes, off + 1, 0);
    PlacedSplit(bytes, poolOff, U32Bytes(|s|), s);
    ReadLow32(bytes, poolOff, |s|);
    PrefixPlaced(bytes, poolOff + 4, s, |s| % U32_RANGE);
    StringDecoded(bytes, poolOff, off);
  }

  lemma StringDecoded(bytes: seq<Byte>, poolOff: nat, off: nat)
    requires off + 5 <= |bytes| && bytes[off] == 4
    ensures var s := ReadString(bytes, poolOff, U32At(bytes, off + 1));
            DecodeAt(bytes, poolOff, off, 0) == if s.Ok? then Ok(Str(s.value)) else Err(s.error)
  {
    assert DecodeAt(bytes, poolOff, off, 0) == DecodeSized(bytes, poolOff, 4, off + 5, U32At(bytes, off + 1), 0);
  }

  lemma StringEmitted(s: Text)
    ensures Emit(Str(s), HEADER_SIZE, []) == Emitted([4] + U32Bytes(0), [s]) && PoolStart(Str(s)) == HEADER_SIZE + 5
    ensures PoolBytes([s]) == U32Bytes(|s|) + s
  {
    var none: seq<Text> := [];
    assert Intern(none, s) == none + [s] == [s] && IdOf([s], s) == 0;
    assert [s][1..] == none && PoolBytes([s]) == U32Bytes(|s|) + s + PoolBytes(none);
  }

  lemma RootAt(v: DocValue, root: seq<Byte>, pool: seq<Byte>)
    requires root == Emit(v, HEADER_SIZE, []).bytes && pool == PoolBytes(Emit(v, HEADER_SIZE, []).names)
    ensures var doc, poolOff := Document(v), HEADER_SIZE + |root|;
            && Placed(doc, HEADER_SIZE, root) && Placed(doc, poolOff, pool)
            && DecodeRoot(doc) == DecodeAt(doc, poolOff % U32_RANGE, HEADER_SIZE, 0)
  {
    RootIsFound(v);
    RootIsDecoded(v);
  }

  lemma StringPlaced(s: Text)
    ensures var doc, poolOff := Document(Str(s)), HEADER_SIZE + 5;
            && Placed(doc, HEADER_SIZE, [4] + U32Bytes(0)) && Placed(doc, poolOff, U32Bytes(|s|) + s)
            && DecodeRoot(doc) == DecodeAt(doc, poolOff, HEADER_SIZE, 0)
  {
    StringEmitted(s);
    RootAt(Str(s), [4] + U32Bytes(0), U32Bytes(|s|) + s);
  }

  lemma StringComesBack(s: Text)
    ensures DecodeRoot(Document(Str(s))) == Ok(Str(s[..|s| % U32_RANGE]))
  {
    StringPlaced(s);
    StringRead(Document(Str(s)), HEADER_SIZE + 5, HEADER_SIZE, s);
  }

  /** The same for a string. */
  lemma StringExact(s: Text)
    ensures DecodeRoot(Document(Str(s))) == Ok(Str(s[..|s| % U32_RANGE]))
    ensures DecodeRoot(Document(Str(s))) == Ok(Str(s)) <==> |s| < U32_RANGE
  {
    StringComesBack(s);
    LowPrefix(s);
  }
}
