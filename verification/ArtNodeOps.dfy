/** Finding, inserting, removing and listing children, through every growth and shrink. */
module ArtNodeOps {
  import opened Wrappers
  import opened Bytes
  import opened ArtNode
  import opened ArtTrie

  const EMPTY_INDEX: seq<Byte> := seq(256, i => 0)
  const EMPTY_TABLE: seq<Option<Node>> := seq(256, i => None)

  /** The linear scan of a small node. */
  method ScanKeys(keys: seq<Byte>, b: Byte) returns (i: nat)
    ensures i == Position(keys, b)
  {
    i := 0;
    while i < |keys| && keys[i] != b
      invariant i <= |keys| && b !in keys[..i]
    {
      i := i + 1;
    }
    PositionIs(keys, b, i);
  }

  lemma {:induction false} PositionIs(keys: seq<Byte>, b: Byte, i: nat)
    requires i <= |keys| && b !in keys[..i] && (i < |keys| ==> keys[i] == b)
    ensures Position(keys, b) == i
  {
    if i > 0 {
      assert keys[0] in keys[..i];
      assert keys[1..][..i - 1] == keys[..i][1..];
      PositionIs(keys[1..], b, i - 1);
    }
  }

  method FindChild(n: Node, b: Byte) returns (r: Option<Node>)
    requires Shaped(n)
    ensures r == ChildAt(n, b)
  {
    match n
    case Leaf(_, _) => r := None;
    case Node4(_, keys, children) =>
      var i := ScanKeys(keys, b);
      r := if i < |keys| then Some(children[i]) else None;
    case Node16(_, keys, children) =>
      var i := ScanKeys(keys, b);
      r := if i < |keys| then Some(children[i]) else None;
    case Node48(_, index, slots, _) =>
      r := if index[b] == 0 then None else slots[index[b] - 1];
    case Node256(_, table, _) => r := table[b];
  }

  // ---------------------------------------------------------------- insertion

  /** The first position whose key is above `b`. */
  method SortedPosition(keys: seq<Byte>, b: Byte) returns (pos: nat)
    requires Ascending(keys) && b !in keys
    ensures pos <= |keys|
    ensures (forall i :: 0 <= i < pos ==> keys[i] < b) && (forall i :: pos <= i < |keys| ==> b < keys[i])
  {
    pos := 0;
    while pos < |keys| && keys[pos] <= b
      invariant pos <= |keys| && forall i :: 0 <= i < pos ==> keys[i] < b
    {
      assert keys[pos] in keys;
      pos := pos + 1;
    }
  }

  /** A node keeps its layout as long as there is room, and takes the next larger one when full. */
  predicate GrownTo(n: Node, r: Node) {
    match n
    case Leaf(_, _) => false
    case Node4(_, keys, _) => if |keys| < NODE4_CAP then r.Node4? else r.Node16?
    case Node16(_, keys, _) => if |keys| < NODE16_CAP then r.Node16? else r.Node48?
    case Node48(_, _, _, count) => if count < NODE48_CAP then r.Node48? else r.Node256?
    case Node256(_, _, _) => r.Node256?
  }

  /** Adds a child under a byte that has none, growing the node when it is full. */
  method InsertChild(n: Node, b: Byte, child: Node) returns (r: Node)
    requires Shaped(n) && !n.Leaf? && ChildAt(n, b) == None
    ensures Updated(n, r, b, Some(child)) && GrownTo(n, r)
    decreases match n case Node4(_, _, _) => 3 case Node16(_, _, _) => 2 case Node48(_, _, _, _) => 1 case _ => 0
  {
    match n
    case Node4(prefix, keys, children) =>
      if |keys| < NODE4_CAP {
        var pos := SortedPosition(keys, b);
        ListInsert(keys, children, pos, b, child, NODE4_CAP);
        r := Node4(prefix, keys[..pos] + [b] + keys[pos..], children[..pos] + [child] + children[pos..]);
      } else {
        var grown := Grow4(prefix, keys, children);
        r := InsertChild(grown, b, child);
      }
    case Node16(prefix, keys, children) =>
      if |keys| < NODE16_CAP {
        var pos := SortedPosition(keys, b);
        ListInsert(keys, children, pos, b, child, NODE16_CAP);
        r := Node16(prefix, keys[..pos] + [b] + keys[pos..], children[..pos] + [child] + children[pos..]);
      } else {
        var grown := Grow16(prefix, keys, children);
        r := InsertChild(grown, b, child);
      }
    case Node48(prefix, index, slots, count) =>
      if count < NODE48_CAP {
        r := InsertSlot(prefix, index, slots, count, b, child);
      } else {
        var grown := Grow48(prefix, index, slots, count);
        r := InsertChild(grown, b, child);
      }
    case Node256(prefix, table, count) =>
      CountSomeUpdate(table, b, Some(child));
      r := Node256(prefix, table[b := Some(child)], count + 1);
  }

  /** A node with the same children under another layout. */
  ghost predicate Relaid(before: Node, after: Node)
    requires Shaped(before)
  {
    && Shaped(after) && !after.Leaf? && Prefix(after) == Prefix(before)
    && forall c: Byte :: ChildAt(after, c) == ChildAt(before, c)
  }

  method Grow4(prefix: Key, keys: seq<Byte>, children: seq<Node>) returns (r: Node)
    requires ListOk(keys, children, NODE4_CAP)
    ensures r.Node16? && |r.keys| == |keys| && Relaid(Node4(prefix, keys, children), r)
  {
    var nk: seq<Byte>, nc: seq<Node> := [], [];
    for i := 0 to |keys|
      invariant nk == keys[..i] && nc == children[..i]
    {
      nk := nk + [keys[i]];
      nc := nc + [children[i]];
    }
    assert nk == keys && nc == children;
    r := Node16(prefix, nk, nc);
  }

  method Grow16(prefix: Key, keys: seq<Byte>, children: seq<Node>) returns (r: Node)
    requires ListOk(keys, children, NODE16_CAP)
    ensures r.Node48? && r.count == |keys| && Relaid(Node16(prefix, keys, children), r)
  {
    var index, slots := NumberKeys(keys, children);
    CopiedAll(slots, children);
    r := Node48(prefix, index, slots, |keys|);
    NumberedFinds(prefix, index, keys, children, slots);
  }

  method NumberKeys(keys: seq<Byte>, children: seq<Node>) returns (index: seq<Byte>, slots: seq<Option<Node>>)
    requires ListOk(keys, children, NODE16_CAP)
    ensures Numbered(index, keys, |keys|) && Copied(slots, children, |keys|)
  {
    index, slots := EMPTY_INDEX, [];
    CountUnused(index);
    var i := 0;
    while i < |keys|
      invariant i <= |keys| && Numbered(index, keys, i) && Copied(slots, children, i)
    {
      NumberedStep(index, keys, i);
      CopiedStep(slots, children, i);
      index, slots, i := index[keys[i] := i + 1], slots + [Some(children[i])], i + 1;
    }
  }

  lemma CopiedStep(slots: seq<Option<Node>>, children: seq<Node>, i: nat)
    requires i < |children| && Copied(slots, children, i)
    ensures Copied(slots + [Some(children[i])], children, i + 1)
  {
  }

  ghost predicate Copied(slots: seq<Option<Node>>, children: seq<Node>, n: nat) {
    |slots| == n <= |children| && forall j :: 0 <= j < n ==> slots[j] == Some(children[j])
  }

  lemma CopiedAll(slots: seq<Option<Node>>, children: seq<Node>)
    requires Copied(slots, children, |children|)
    ensures CountSome(slots) == |children|
  {
    CountSomeFull(slots);
  }

  /** The first `n` keys are numbered 1..n in the index and nothing else is. */
  ghost predicate Numbered(index: seq<Byte>, keys: seq<Byte>, n: nat) {
    && |index| == 256 && n <= |keys| && CountUsed(index) == n
    && (forall j :: 0 <= j < n ==> index[keys[j]] == j + 1)
    && (forall b :: 0 <= b < 256 && index[b] != 0 ==> index[b] <= n && keys[index[b] - 1] == b)
  }

  lemma NumberedStep(index: seq<Byte>, keys: seq<Byte>, i: nat)
    requires Ascending(keys) && i < |keys| <= NODE16_CAP && Numbered(index, keys, i)
    ensures Numbered(index[keys[i] := i + 1], keys, i + 1)
  {
    CountUsedUpdate(index, keys[i], i + 1);
  }

  lemma NumberedFinds(prefix: Key, index: seq<Byte>, keys: seq<Byte>, children: seq<Node>, slots: seq<Option<Node>>)
    requires ListOk(keys, children, NODE16_CAP) && Numbered(index, keys, |keys|)
    requires CountSome(slots) == |keys| && Copied(slots, children, |keys|)
    ensures Relaid(Node16(prefix, keys, children), Node48(prefix, index, slots, |keys|))
  {
    assert IndexOk(index, slots, |keys|);
    forall c: Byte ensures ChildAt(Node48(prefix, index, slots, |keys|), c) == ChildAt(Node16(prefix, keys, children), c) {
      var i := Position(keys, c);
      if index[c] != 0 {
        assert keys[index[c] - 1] in keys;
      }
    }
  }

  method InsertSlot(prefix: Key, index: seq<Byte>, slots: seq<Option<Node>>, count: nat, b: Byte, child: Node)
    returns (r: Node)
    requires IndexOk(index, slots, count) && count < NODE48_CAP && index[b] == 0
    ensures r.Node48? && Updated(Node48(prefix, index, slots, count), r, b, Some(child))
  {
    var slot := 0;
    while slot < |slots| && slots[slot].Some?
      invariant slot <= |slots| && forall i :: 0 <= i < slot ==> slots[i].Some?
    {
      slot := slot + 1;
    }
    CountSomeFull(slots);
    if slot >= |slots| {
      r := Node48(prefix, index[b := slot + 1], slots + [Some(child)], count + 1);
    } else {
      r := Node48(prefix, index[b := slot + 1], slots[slot := Some(child)], count + 1);
    }
    SlotFilled(prefix, index, slots, count, b, slot, child, r.slots);
  }

  /** Occupying a free slot, in place or at the end, and pointing an unused byte at it. */
  lemma SlotFilled(prefix: Key, index: seq<Byte>, slots: seq<Option<Node>>, count: nat, b: Byte, slot: nat,
                   child: Node, filled: seq<Option<Node>>)
    requires IndexOk(index, slots, count) && index[b] == 0 && count < NODE48_CAP && slot < NODE48_CAP
    requires slot <= |slots| && (slot < |slots| ==> slots[slot].None?)
    requires filled == if slot < |slots| then slots[slot := Some(child)] else slots + [Some(child)]
    ensures Updated(Node48(prefix, index, slots, count),
                    Node48(prefix, index[b := slot + 1], filled, count + 1), b, Some(child))
  {
    SlotUnused(index, slots, count, slot);
    SlotCounted(index, slots, count, b, slot, child, filled);
    assert forall c :: 0 <= c < 256 && c != b && index[c] != 0 ==> filled[index[c] - 1] == slots[index[c] - 1];
  }

  lemma SlotCounted(index: seq<Byte>, slots: seq<Option<Node>>, count: nat, b: Byte, slot: nat, child: Node,
                    filled: seq<Option<Node>>)
    requires IndexOk(index, slots, count) && index[b] == 0 && slot < NODE48_CAP
    requires slot <= |slots| && (slot < |slots| ==> slots[slot].None?)
    requires filled == if slot < |slots| then slots[slot := Some(child)] else slots + [Some(child)]
    requires forall c :: 0 <= c < 256 ==> index[c] != slot + 1
    ensures IndexOk(index[b := slot + 1], filled, count + 1)
  {
    CountUsedUpdate(index, b, slot + 1);
    if slot < |slots| {
      CountSomeUpdate(slots, slot, Some(child));
    } else {
      assert filled[..|slots|] == slots;
    }
  }

  lemma SlotUnused(index: seq<Byte>, slots: seq<Option<Node>>, count: nat, slot: nat)
    requires IndexOk(index, slots, count) && slot <= |slots| && (slot < |slots| ==> slots[slot].None?)
    ensures forall c :: 0 <= c < 256 ==> index[c] != slot + 1
  {
  }

  method Grow48(prefix: Key, index: seq<Byte>, slots: seq<Option<Node>>, count: nat) returns (r: Node)
    requires IndexOk(index, slots, count)
    ensures r.Node256? && Relaid(Node48(prefix, index, slots, count), r)
  {
    var table: seq<Option<Node>> := EMPTY_TABLE;
    CountNone(table);
    for b := 0 to 256
      invariant |table| == 256 && CountSome(table) == CountUsed(index[..b])
      invariant forall c :: 0 <= c < 256 ==>
                  table[c] == if c < b && index[c] != 0 then slots[index[c] - 1] else None
    {
      assert index[..b + 1][..b] == index[..b];
      var slot := index[b];
      if slot != 0 {
        CountSomeUpdate(table, b, slots[slot - 1]);
        table := table[b := slots[slot - 1]];
      }
    }
    assert index[..256] == index;
    r := Node256(prefix, table, count);
  }

  // ---------------------------------------------------------------- removal

  /** A node that has lost a child takes the next smaller layout once it fits; a Node16 keeps its own
      until a single child is left, and a Node4 always. */
  predicate ShrunkTo(n: Node, r: Node) {
    match n
    case Leaf(_, _) => false
    case Node4(_, _, _) => r.Node4?
    case Node16(_, keys, _) => if |keys| <= 2 then r.Node4? else r.Node16?
    case Node48(_, _, _, count) => if count <= NODE16_CAP + 1 then r.Node16? else r.Node48?
    case Node256(_, _, count) => if count <= NODE48_CAP + 1 then r.Node48? else r.Node256?
  }

  /** Takes a child out, shrinking the node when it has become small. */
  method RemoveChild(n: Node, b: Byte) returns (child: Option<Node>, r: Node)
    requires Shaped(n) && !n.Leaf?
    ensures child == ChildAt(n, b) && Updated(n, r, b, None)
    ensures if child.None? then r == n else ShrunkTo(n, r)
  {
    match n
    case Node4(prefix, keys, children) =>
      var pos := ScanKeys(keys, b);
      if pos == |keys| {
        return None, n;
      }
      ListRemove(keys, children, pos, NODE4_CAP);
      return Some(children[pos]), Node4(prefix, keys[..pos] + keys[pos + 1..], children[..pos] + children[pos + 1..]);
    case Node16(prefix, keys, children) =>
      var pos := ScanKeys(keys, b);
      if pos == |keys| {
        return None, n;
      }
      ListRemove(keys, children, pos, NODE16_CAP);
      var ks, cs := keys[..pos] + keys[pos + 1..], children[..pos] + children[pos + 1..];
      return Some(children[pos]), if |ks| <= 1 then Node4(prefix, ks, cs) else Node16(prefix, ks, cs);
    case Node48(prefix, index, slots, count) =>
      if index[b] == 0 {
        return None, n;
      }
      child := slots[index[b] - 1];
      r := ClearSlot(prefix, index, slots, count, b);
      if r.count <= NODE16_CAP {
        r := Shrink48(prefix, r.index, r.slots, r.count);
      }
    case Node256(prefix, table, count) =>
      child := table[b];
      if child.None? {
        return child, n;
      }
      CountSomeUpdate(table, b, None);
      if count - 1 <= NODE48_CAP {
        r := Shrink256(prefix, table[b := None], count - 1);
      } else {
        r := Node256(prefix, table[b := None], count - 1);
      }
  }

  method ClearSlot(prefix: Key, index: seq<Byte>, slots: seq<Option<Node>>, count: nat, b: Byte) returns (r: Node)
    requires IndexOk(index, slots, count) && index[b] != 0
    ensures r.Node48? && r.prefix == prefix && r.count + 1 == count
    ensures Updated(Node48(prefix, index, slots, count), r, b, None)
  {
    CountSomeUpdate(slots, index[b] - 1, None);
    CountUsedUpdate(index, b, 0);
    r := Node48(prefix, index[b := 0], slots[index[b] - 1 := None], count - 1);
  }

  method Shrink48(prefix: Key, index: seq<Byte>, slots: seq<Option<Node>>, count: nat) returns (r: Node)
    requires IndexOk(index, slots, count) && count <= NODE16_CAP
    ensures r.Node16? && Relaid(Node48(prefix, index, slots, count), r)
  {
    var keys: seq<Byte>, children: seq<Node> := [], [];
    for b := 0 to 256
      invariant Gathered(index, slots, keys, children, b)
    {
      assert index[..b + 1][..b] == index[..b];
      var s := index[b];
      if s != 0 {
        GatheredStep(index, slots, keys, children, b);
        keys := keys + [b];
        children := children + [slots[s - 1].value];
      }
    }
    assert index[..256] == index;
    r := Node16(prefix, keys, children);
    GatheredFinds(prefix, index, slots, count, keys, children);
  }

  /** `keys` are the bytes below `b` in use, in order, with their children. */
  ghost predicate Gathered(index: seq<Byte>, slots: seq<Option<Node>>, keys: seq<Byte>, children: seq<Node>, b: nat) {
    && b <= 256 == |index| && |keys| == |children| == CountUsed(index[..b]) && Ascending(keys)
    && (forall i :: 0 <= i < |keys| ==> keys[i] < b && index[keys[i]] != 0 && index[keys[i]] - 1 < |slots|)
    && (forall i :: 0 <= i < |keys| ==> slots[index[keys[i]] - 1] == Some(children[i]))
    && (forall c :: 0 <= c < b && index[c] != 0 ==> c in keys)
  }

  lemma GatheredStep(index: seq<Byte>, slots: seq<Option<Node>>, keys: seq<Byte>, children: seq<Node>, b: nat)
    requires b < 256 && Gathered(index, slots, keys, children, b)
    requires index[b] != 0 && index[b] - 1 < |slots| && slots[index[b] - 1].Some?
    ensures Gathered(index, slots, keys + [b], children + [slots[index[b] - 1].value], b + 1)
  {
    assert index[..b + 1][..b] == index[..b];
    var ks := keys + [b];
    assert ks[|keys|] == b;
    forall c | 0 <= c < b + 1 && index[c] != 0 ensures c in ks {
      if c < b {
        assert c in keys;
      }
    }
  }

  lemma GatheredFinds(prefix: Key, index: seq<Byte>, slots: seq<Option<Node>>, count: nat, keys: seq<Byte>,
                      children: seq<Node>)
    requires IndexOk(index, slots, count) && count <= NODE16_CAP && Gathered(index, slots, keys, children, 256)
    ensures Relaid(Node48(prefix, index, slots, count), Node16(prefix, keys, children))
  {
    assert index[..256] == index;
    forall c: Byte
      ensures ChildAt(Node16(prefix, keys, children), c) == ChildAt(Node48(prefix, index, slots, count), c)
    {
      var i := Position(keys, c);
      assert index[c] != 0 ==> c in keys;
    }
  }

  method Shrink256(prefix: Key, table: seq<Option<Node>>, count: nat) returns (r: Node)
    requires |table| == 256 && CountSome(table) == count <= NODE48_CAP
    ensures r.Node48? && Relaid(Node256(prefix, table, count), r)
  {
    var index: seq<Byte>, slots: seq<Option<Node>> := EMPTY_INDEX, [];
    CountUnused(index);
    for b := 0 to 256
      invariant Packed(index, slots, table, b)
    {
      CountSomePrefix(table, b);
      if table[b].Some? {
        PackedStep(index, slots, table, b);
        index := index[b := |slots| + 1];
        slots := slots + [table[b]];
      } else {
        assert table[..b + 1][..b] == table[..b];
      }
    }
    assert table[..256] == table;
    CountSomeFull(slots);
    r := Node48(prefix, index, slots, count);
  }

  /** The children under bytes below `b` stand in `slots`, numbered from 1 in the index. */
  ghost predicate Packed(index: seq<Byte>, slots: seq<Option<Node>>, table: seq<Option<Node>>, b: nat) {
    && |index| == |table| == 256 && b <= 256 && |slots| == CountSome(table[..b]) == CountUsed(index)
    && (forall c :: b <= c < 256 ==> index[c] == 0)
    && (forall c :: 0 <= c < b ==> (index[c] != 0 <==> table[c].Some?))
    && (forall c :: 0 <= c < b && index[c] != 0 ==> index[c] <= |slots| && slots[index[c] - 1] == table[c])
    && (forall c, d :: 0 <= c < d < b && index[c] != 0 ==> index[c] != index[d])
    && (forall i :: 0 <= i < |slots| ==> slots[i].Some?)
  }

  lemma PackedStep(index: seq<Byte>, slots: seq<Option<Node>>, table: seq<Option<Node>>, b: nat)
    requires b < 256 && |slots| < NODE48_CAP && Packed(index, slots, table, b) && table[b].Some?
    ensures Packed(index[b := |slots| + 1], slots + [table[b]], table, b + 1)
  {
    CountUsedUpdate(index, b, |slots| + 1);
    assert table[..b + 1][..b] == table[..b];
  }

  lemma {:induction false} CountSomePrefix(table: seq<Option<Node>>, b: nat)
    requires b < |table|
    ensures CountSome(table[..b]) + (if table[b].Some? then 1 else 0) <= CountSome(table)
  {
    var n := |table| - 1;
    if b < n {
      CountSomePrefix(table[..n], b);
      assert table[..n][..b] == table[..b];
    }
  }

  // ---------------------------------------------------------------- listing

  /** All children in byte order. */
  method IterChildren(n: Node) returns (r: seq<(Byte, Node)>)
    requires Shaped(n)
    ensures r == Children(n)
  {
    match n
    case Leaf(_, _) =>
      r := [];
      NoChildrenFrom(n, 0);
    case Node4(_, keys, children) =>
      r := Zip(keys, children);
      ZipIsChildren(n, keys, children, 0);
    case Node16(_, keys, children) =>
      r := Zip(keys, children);
      ZipIsChildren(n, keys, children, 0);
    case Node48(_, index, slots, _) =>
      r := [];
      for b := 0 to 256
        invariant r + ChildrenFrom(n, b) == Children(n)
      {
        if index[b] != 0 && slots[index[b] - 1].Some? {
          r := r + [(b, slots[index[b] - 1].value)];
        }
      }
    case Node256(_, table, _) =>
      r := [];
      for b := 0 to 256
        invariant r + ChildrenFrom(n, b) == Children(n)
      {
        if table[b].Some? {
          r := r + [(b, table[b].value)];
        }
      }
  }

  lemma {:induction false} NoChildrenFrom(n: Node, from: nat)
    requires Shaped(n) && from <= 256 && forall b: Byte :: ChildAt(n, b) == None
    ensures ChildrenFrom(n, from) == []
    decreases 256 - from
  {
    if from < 256 {
      NoChildrenFrom(n, from + 1);
    }
  }

  function Zip(keys: seq<Byte>, children: seq<Node>): seq<(Byte, Node)>
    requires |keys| == |children|
  {
    if keys == [] then [] else [(keys[0], children[0])] + Zip(keys[1..], children[1..])
  }

  /** Sorted bytes from `from` on, with their children, are the listing from there. */
  lemma {:induction false} ZipIsChildren(n: Node, keys: seq<Byte>, children: seq<Node>, from: nat)
    requires Shaped(n) && |keys| == |children| && Ascending(keys) && from <= 256
    requires forall i :: 0 <= i < |keys| ==> from <= keys[i]
    requires forall b: Byte :: from <= b ==>
               ChildAt(n, b) == if Position(keys, b) < |keys| then Some(children[Position(keys, b)]) else None
    ensures ChildrenFrom(n, from) == Zip(keys, children)
    decreases 256 - from
  {
    if from < 256 {
      if keys != [] && keys[0] == from {
        ZipIsChildren(n, keys[1..], children[1..], from + 1);
      } else {
        assert keys != [] ==> from < keys[0];
        ZipIsChildren(n, keys, children, from + 1);
      }
    }
  }
}
