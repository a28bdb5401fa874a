/** The four node layouts of the adaptive radix tree, each a map from bytes to children. */
module ArtNode {
  import opened Wrappers
  import opened Bytes
  import opened ArtTrie

  datatype Node =
    | Leaf(key: Key, value: V)
    | Node4(prefix: Key, keys: seq<Byte>, children: seq<Node>)
    | Node16(prefix: Key, keys: seq<Byte>, children: seq<Node>)
    | Node48(prefix: Key, index: seq<Byte>, slots: seq<Option<Node>>, count: nat)
    | Node256(prefix: Key, table: seq<Option<Node>>, count: nat)

  const NODE4_CAP: nat := 4
  const NODE16_CAP: nat := 16
  const NODE48_CAP: nat := 48

  // ---------------------------------------------------------------- layouts

  /** Where `b` stands in `keys`, or `|keys|`. */
  function Position(keys: seq<Byte>, b: Byte): (i: nat)
    ensures i <= |keys| && (i < |keys| ==> keys[i] == b)
    ensures i == |keys| <==> b !in keys
  {
    if keys == [] then 0 else if keys[0] == b then 0 else 1 + Position(keys[1..], b)
  }

  predicate Ascending(keys: seq<Byte>) {
    forall i, j :: 0 <= i < j < |keys| ==> keys[i] < keys[j]
  }

  function CountSome(slots: seq<Option<Node>>): (n: nat)
    ensures n <= |slots|
  {
    if slots == [] then 0 else CountSome(slots[..|slots| - 1]) + if slots[|slots| - 1].Some? then 1 else 0
  }

  function CountUsed(index: seq<Byte>): (n: nat)
    ensures n <= |index|
  {
    if index == [] then 0 else CountUsed(index[..|index| - 1]) + if index[|index| - 1] != 0 then 1 else 0
  }

  predicate ListOk(keys: seq<Byte>, children: seq<Node>, cap: nat) {
    Ascending(keys) && |keys| == |children| <= cap
  }

  /** Every nonzero index entry leads to its own occupied slot, and no occupied slot is unused. */
  predicate IndexOk(index: seq<Byte>, slots: seq<Option<Node>>, count: nat) {
    && |index| == 256 && |slots| <= NODE48_CAP
    && (forall b :: 0 <= b < 256 && index[b] != 0 ==> index[b] - 1 < |slots| && slots[index[b] - 1].Some?)
    && (forall b, c :: 0 <= b < c < 256 && index[b] != 0 ==> index[b] != index[c])
    && CountSome(slots) == CountUsed(index) == count
  }

  predicate Shaped(n: Node) {
    match n
    case Leaf(_, _) => true
    case Node4(_, keys, children) => ListOk(keys, children, NODE4_CAP)
    case Node16(_, keys, children) => ListOk(keys, children, NODE16_CAP)
    case Node48(_, index, slots, count) => IndexOk(index, slots, count)
    case Node256(_, table, count) => |table| == 256 && CountSome(table) == count
  }

  // ---------------------------------------------------------------- meaning

  /** The child stored under byte `b`. */
  function ChildAt(n: Node, b: Byte): (r: Option<Node>)
    requires Shaped(n)
    ensures r.Some? ==> r.value < n
  {
    match n
    case Leaf(_, _) => None
    case Node4(_, keys, children) =>
      var i := Position(keys, b);
      if i < |keys| then Some(children[i]) else None
    case Node16(_, keys, children) =>
      var i := Position(keys, b);
      if i < |keys| then Some(children[i]) else None
    case Node48(_, index, slots, _) => if index[b] == 0 then None else slots[index[b] - 1]
    case Node256(_, table, _) => table[b]
  }

  function Prefix(n: Node): Key {
    if n.Leaf? then [] else n.prefix
  }

  /** `after` is `before` with the child under `b` replaced by `child`. */
  ghost predicate Updated(before: Node, after: Node, b: Byte, child: Option<Node>)
    requires Shaped(before)
  {
    && Shaped(after) && !after.Leaf? && Prefix(after) == Prefix(before)
    && forall c: Byte :: ChildAt(after, c) == if c == b then child else ChildAt(before, c)
  }

  /** The children in byte order, from byte `from` on. */
  function ChildrenFrom(n: Node, from: nat): (r: seq<(Byte, Node)>)
    requires Shaped(n) && from <= 256
    decreases 256 - from
  {
    if from == 256 then []
    else
      var rest := ChildrenFrom(n, from + 1);
      if ChildAt(n, from).Some? then [(from, ChildAt(n, from).value)] + rest else rest
  }

  function Children(n: Node): seq<(Byte, Node)>
    requires Shaped(n)
  {
    ChildrenFrom(n, 0)
  }

  // ---------------------------------------------------------------- sorted lists

  lemma PositionAt(keys: seq<Byte>, i: nat)
    requires Ascending(keys) && i < |keys|
    ensures Position(keys, keys[i]) == i
  {
    var p := Position(keys, keys[i]);
    assert keys[i] in keys;
    assert keys[p] == keys[i];
  }

  /** `long` is `short` with `x` put in at `pos`. */
  ghost predicate PutIn<T>(short: seq<T>, long: seq<T>, pos: nat, x: T) {
    && |long| == |short| + 1 && pos <= |short| && long[pos] == x
    && (forall i :: 0 <= i < pos ==> long[i] == short[i])
    && (forall i :: pos < i < |long| ==> long[i] == short[i - 1])
  }

  lemma PutInSlices<T>(s: seq<T>, pos: nat, x: T)
    requires pos <= |s|
    ensures PutIn(s, s[..pos] + [x] + s[pos..], pos, x)
  {
  }

  lemma TakenOutSlices<T>(s: seq<T>, pos: nat)
    requires pos < |s|
    ensures PutIn(s[..pos] + s[pos + 1..], s, pos, s[pos])
  {
  }

  lemma PutInAbsent(short: seq<Byte>, long: seq<Byte>, pos: nat, b: Byte, c: Byte)
    requires PutIn(short, long, pos, b) && c != b && c !in short
    ensures c !in long
  {
    forall i | 0 <= i < |long| ensures long[i] != c {
      assert i != pos ==> long[i] == short[if i < pos then i else i - 1];
    }
  }

  lemma PutInNew(short: seq<Byte>, long: seq<Byte>, pos: nat, b: Byte)
    requires Ascending(long) && PutIn(short, long, pos, b)
    ensures b !in short
  {
    forall j | 0 <= j < |short| ensures short[j] != b {
      assert short[j] == long[if j < pos then j else j + 1];
    }
  }

  /** Where a byte stands before and after another one is put in. */
  lemma PutInPosition(short: seq<Byte>, long: seq<Byte>, pos: nat, b: Byte, c: Byte)
    requires Ascending(short) && Ascending(long) && PutIn(short, long, pos, b)
    ensures c == b ==> Position(long, c) == pos
    ensures c != b ==> Position(long, c) == Position(short, c) + if Position(short, c) < pos then 0 else 1
    ensures b !in short
  {
    PutInNew(short, long, pos, b);
    if c == b {
      PositionAt(long, pos);
    } else {
      var j := Position(short, c);
      if j < |short| {
        PositionAt(long, if j < pos then j else j + 1);
      } else {
        PutInAbsent(short, long, pos, b, c);
      }
    }
  }

  /** A sorted list with one more entry answers as before, except for the new byte. */
  ghost predicate Extends(keys: seq<Byte>, children: seq<Node>, ks: seq<Byte>, cs: seq<Node>, b: Byte, child: Node)
    requires |keys| == |children| && |ks| == |cs|
  {
    forall c: Byte :: var i, j := Position(ks, c), Position(keys, c);
      if c == b then i < |ks| && cs[i] == child && j == |keys|
      else (i < |ks| <==> j < |keys|) && (i < |ks| ==> cs[i] == children[j])
  }

  lemma PutInExtends(keys: seq<Byte>, children: seq<Node>, ks: seq<Byte>, cs: seq<Node>, pos: nat, b: Byte, child: Node)
    requires Ascending(keys) && Ascending(ks) && |keys| == |children| && |ks| == |cs|
    requires PutIn(keys, ks, pos, b) && PutIn(children, cs, pos, child)
    ensures Extends(keys, children, ks, cs, b, child)
  {
    forall c: Byte
      ensures var i, j := Position(ks, c), Position(keys, c);
              if c == b then i < |ks| && cs[i] == child && j == |keys|
              else (i < |ks| <==> j < |keys|) && (i < |ks| ==> cs[i] == children[j])
    {
      PutInPosition(keys, ks, pos, b, c);
    }
  }

  lemma PutInAscends(short: seq<Byte>, long: seq<Byte>, pos: nat, b: Byte)
    requires PutIn(short, long, pos, b) && Ascending(short)
    requires (forall i :: 0 <= i < pos ==> short[i] < b) && (forall i :: pos <= i < |short| ==> b < short[i])
    ensures Ascending(long)
  {
  }

  lemma TakenOutAscends(short: seq<Byte>, long: seq<Byte>, pos: nat, b: Byte)
    requires PutIn(short, long, pos, b) && Ascending(long)
    ensures Ascending(short)
  {
    forall i, j | 0 <= i < j < |short| ensures short[i] < short[j] {
      var i', j' := if i < pos then i else i + 1, if j < pos then j else j + 1;
      assert long[i'] < long[j'];
    }
  }

  /** Inserting a new byte and its child at the same sorted place adds just that entry. */
  lemma ListInsert(keys: seq<Byte>, children: seq<Node>, pos: nat, b: Byte, child: Node, cap: nat)
    requires ListOk(keys, children, cap) && |keys| < cap && b !in keys && pos <= |keys|
    requires (forall i :: 0 <= i < pos ==> keys[i] < b) && (forall i :: pos <= i < |keys| ==> b < keys[i])
    ensures var ks, cs := keys[..pos] + [b] + keys[pos..], children[..pos] + [child] + children[pos..];
            ListOk(ks, cs, cap) && Extends(keys, children, ks, cs, b, child)
  {
    var ks, cs := keys[..pos] + [b] + keys[pos..], children[..pos] + [child] + children[pos..];
    PutInSlices(keys, pos, b);
    PutInSlices(children, pos, child);
    PutInAscends(keys, ks, pos, b);
    PutInExtends(keys, children, ks, cs, pos, b, child);
  }

  lemma ListRemove(keys: seq<Byte>, children: seq<Node>, pos: nat, cap: nat)
    requires ListOk(keys, children, cap) && pos < |keys|
    ensures var ks, cs := keys[..pos] + keys[pos + 1..], children[..pos] + children[pos + 1..];
            ListOk(ks, cs, cap) && Extends(ks, cs, keys, children, keys[pos], children[pos])
  {
    var ks, cs := keys[..pos] + keys[pos + 1..], children[..pos] + children[pos + 1..];
    TakenOutSlices(keys, pos);
    TakenOutSlices(children, pos);
    TakenOutAscends(ks, keys, pos, keys[pos]);
    PutInExtends(ks, cs, keys, children, pos, keys[pos], children[pos]);
  }

  // ---------------------------------------------------------------- counting

  lemma {:induction false} CountSomeUpdate(slots: seq<Option<Node>>, i: nat, x: Option<Node>)
    requires i < |slots|
    ensures CountSome(slots[i := x]) ==
            CountSome(slots) - (if slots[i].Some? then 1 else 0) + (if x.Some? then 1 else 0)
  {
    var n := |slots| - 1;
    if i == n {
      assert slots[i := x][..n] == slots[..n];
    } else {
      CountSomeUpdate(slots[..n], i, x);
      assert slots[i := x][..n] == slots[..n][i := x];
    }
  }

  lemma {:induction false} CountUsedUpdate(index: seq<Byte>, i: nat, x: Byte)
    requires i < |index|
    ensures CountUsed(index[i := x]) ==
            CountUsed(index) - (if index[i] != 0 then 1 else 0) + (if x != 0 then 1 else 0)
  {
    var n := |index| - 1;
    if i == n {
      assert index[i := x][..n] == index[..n];
    } else {
      CountUsedUpdate(index[..n], i, x);
      assert index[i := x][..n] == index[..n][i := x];
    }
  }

  lemma {:induction false} CountSomeFull(slots: seq<Option<Node>>)
    ensures CountSome(slots) == |slots| <==> forall i :: 0 <= i < |slots| ==> slots[i].Some?
  {
    if slots != [] {
      CountSomeFull(slots[..|slots| - 1]);
    }
  }

  lemma {:induction false} CountNone(slots: seq<Option<Node>>)
    requires forall i :: 0 <= i < |slots| ==> slots[i].None?
    ensures CountSome(slots) == 0
  {
    if slots != [] {
      CountNone(slots[..|slots| - 1]);
    }
  }

  lemma {:induction false} CountUnused(index: seq<Byte>)
    requires forall i :: 0 <= i < |index| ==> index[i] == 0
    ensures CountUsed(index) == 0
  {
    if index != [] {
      CountUnused(index[..|index| - 1]);
    }
  }
}
