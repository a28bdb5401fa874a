/** The trie that a tree of nodes stands for, whatever the layout of each node. */
module ArtRefine {
  import opened Wrappers
  import opened Bytes
  import opened ArtTrie
  import opened ArtRemove
  import opened ArtNode

  ghost predicate Sound(n: Node) {
    Shaped(n) && forall b: Byte :: ChildAt(n, b).Some? ==> Sound(ChildAt(n, b).value)
  }

  ghost function Abs(n: Node): Trie
    requires Sound(n)
  {
    if n.Leaf? then Tip(n.key, n.value)
    else Branch(n.prefix, map b: Byte | 0 <= b < 256 && ChildAt(n, b).Some? :: Abs(ChildAt(n, b).value))
  }

  ghost predicate SoundSlot(slot: Option<Node>) { slot.Some? ==> Sound(slot.value) }

  ghost function AbsSlot(slot: Option<Node>): Option<Trie>
    requires SoundSlot(slot)
  {
    if slot.None? then None else Some(Abs(slot.value))
  }

  lemma KidAt(n: Node, b: Byte)
    requires Sound(n) && !n.Leaf?
    ensures b in Abs(n).kids <==> ChildAt(n, b).Some?
    ensures ChildAt(n, b).Some? ==> Abs(n).kids[b] == Abs(ChildAt(n, b).value)
  {
  }

  lemma SameKids(a: map<Byte, Trie>, b: map<Byte, Trie>)
    requires forall c: Byte :: (c in a <==> c in b) && (c in a ==> a[c] == b[c])
    ensures a == b
  {
    assert a.Keys == b.Keys;
  }

  lemma KidAfter(before: Node, after: Node, b: Byte, child: Option<Node>, c: Byte)
    requires Sound(before) && !before.Leaf? && SoundSlot(child) && Sound(after) && !after.Leaf?
    requires ChildAt(after, c) == if c == b then child else ChildAt(before, c)
    ensures var kids := WithoutChild(Abs(before).kids, b, AbsSlot(child));
            (c in Abs(after).kids <==> c in kids) && (c in kids ==> Abs(after).kids[c] == kids[c])
  {
    KidAt(before, c);
    KidAt(after, c);
  }

  lemma SoundAfter(before: Node, after: Node, b: Byte, child: Option<Node>)
    requires Sound(before) && SoundSlot(child) && Updated(before, after, b, child)
    ensures Sound(after)
  {
    forall c: Byte ensures ChildAt(after, c).Some? ==> Sound(ChildAt(after, c).value) {
    }
  }

  /** Changing one child of a node changes one child of its trie. */
  lemma AbsUpdated(before: Node, after: Node, b: Byte, child: Option<Node>)
    requires Sound(before) && !before.Leaf? && SoundSlot(child) && Updated(before, after, b, child)
    ensures Sound(after) && Abs(after) == Branch(before.prefix, WithoutChild(Abs(before).kids, b, AbsSlot(child)))
  {
    SoundAfter(before, after, b, child);
    var kids := WithoutChild(Abs(before).kids, b, AbsSlot(child));
    forall c: Byte ensures (c in Abs(after).kids <==> c in kids) && (c in kids ==> Abs(after).kids[c] == kids[c]) {
      KidAfter(before, after, b, child, c);
    }
    SameKids(Abs(after).kids, kids);
  }

  lemma AbsLeaf(key: Key, value: V)
    ensures Sound(Leaf(key, value)) && Abs(Leaf(key, value)) == Tip(key, value)
  {
    assert forall b: Byte :: ChildAt(Leaf(key, value), b) == None;
  }

  /** A fresh small node has no children. */
  lemma AbsEmpty(prefix: Key)
    ensures Sound(Node4(prefix, [], [])) && Abs(Node4(prefix, [], [])) == Branch(prefix, map[])
  {
    var n := Node4(prefix, [], []);
    assert forall b: Byte :: ChildAt(n, b) == None;
  }

  lemma KidPrefixed(n: Node, after: Node, b: Byte)
    requires Sound(n) && !n.Leaf? && Sound(after) && !after.Leaf? && ChildAt(after, b) == ChildAt(n, b)
    ensures var kids := Abs(n).kids;
            (b in Abs(after).kids <==> b in kids) && (b in kids ==> Abs(after).kids[b] == kids[b])
  {
    KidAt(n, b);
    KidAt(after, b);
  }

  lemma AbsPrefixed(n: Node, after: Node)
    requires Sound(n) && !n.Leaf? && Shaped(after) && !after.Leaf?
    requires forall b: Byte :: ChildAt(after, b) == ChildAt(n, b)
    ensures Sound(after) && Abs(after) == Branch(after.prefix, Abs(n).kids)
  {
    assert Sound(after);
    forall b: Byte
      ensures (b in Abs(after).kids <==> b in Abs(n).kids) && (b in Abs(n).kids ==> Abs(after).kids[b] == Abs(n).kids[b])
    {
      KidPrefixed(n, after, b);
    }
    SameKids(Abs(after).kids, Abs(n).kids);
  }

  // ---------------------------------------------------------------- counting children

  function ChildCount(n: Node): nat {
    match n
    case Leaf(_, _) => 0
    case Node4(_, keys, _) => |keys|
    case Node16(_, keys, _) => |keys|
    case Node48(_, _, _, count) => count
    case Node256(_, _, count) => count
  }

  /** The stored counters say how many bytes lead to a child. */
  lemma CountIsExact(n: Node)
    requires Shaped(n)
    ensures ChildCount(n) == |Children(n)|
  {
    match n
    case Leaf(_, _) => NoneListed(n, 0);
    case Node4(_, keys, children) => ListCounted(n, keys, 0);
    case Node16(_, keys, children) => ListCounted(n, keys, 0);
    case Node48(_, index, _, _) =>
      IndexCounted(n, 0);
    case Node256(_, table, _) =>
      TableCounted(n, 0);
  }

  lemma {:induction false} NoneListed(n: Node, from: nat)
    requires Shaped(n) && from <= 256 && forall b: Byte :: from <= b ==> ChildAt(n, b) == None
    ensures ChildrenFrom(n, from) == []
    decreases 256 - from
  {
    if from < 256 {
      NoneListed(n, from + 1);
    }
  }

  lemma {:induction false} ListCounted(n: Node, keys: seq<Byte>, from: nat)
    requires Shaped(n) && Ascending(keys) && from <= 256 && forall i :: 0 <= i < |keys| ==> from <= keys[i]
    requires forall b: Byte :: from <= b ==> (ChildAt(n, b).Some? <==> b in keys)
    ensures |ChildrenFrom(n, from)| == |keys|
    decreases 256 - from
  {
    if from < 256 {
      if keys != [] && keys[0] == from {
        ListCounted(n, keys[1..], from + 1);
      } else {
        assert from !in keys;
        ListCounted(n, keys, from + 1);
      }
    }
  }

  lemma {:induction false} IndexCounted(n: Node, from: nat)
    requires n.Node48? && Shaped(n) && from <= 256
    ensures CountUsed(n.index[..from]) + |ChildrenFrom(n, from)| == n.count
    decreases 256 - from
  {
    if from == 256 {
      assert n.index[..from] == n.index;
    } else {
      assert n.index[..from + 1][..from] == n.index[..from];
      IndexCounted(n, from + 1);
    }
  }

  lemma {:induction false} TableCounted(n: Node, from: nat)
    requires n.Node256? && Shaped(n) && from <= 256
    ensures CountSome(n.table[..from]) + |ChildrenFrom(n, from)| == n.count
    decreases 256 - from
  {
    if from == 256 {
      assert n.table[..from] == n.table;
    } else {
      assert n.table[..from + 1][..from] == n.table[..from];
      TableCounted(n, from + 1);
    }
  }

  ghost function BytesFrom(kids: map<Byte, Trie>, from: nat): set<Byte> {
    set b: Byte | b in kids && from <= b
  }

  lemma BytesStep(kids: map<Byte, Trie>, from: nat)
    requires from < 256
    ensures |BytesFrom(kids, from)| == |BytesFrom(kids, from + 1)| + if from in kids then 1 else 0
  {
    var here, rest := BytesFrom(kids, from), BytesFrom(kids, from + 1);
    if from in kids {
      assert here == {from} + rest;
    } else {
      assert here == rest;
    }
  }

  lemma ChildrenStep(n: Node, from: nat)
    requires Shaped(n) && from < 256
    ensures ChildAt(n, from).Some? ==> ChildrenFrom(n, from) == [(from, ChildAt(n, from).value)] + ChildrenFrom(n, from + 1)
    ensures ChildAt(n, from).None? ==> ChildrenFrom(n, from) == ChildrenFrom(n, from + 1)
  {
  }

  lemma {:induction false} ListedKids(n: Node, from: nat)
    requires Sound(n) && !n.Leaf? && from <= 256
    ensures |ChildrenFrom(n, from)| == |BytesFrom(Abs(n).kids, from)|
    decreases 256 - from
  {
    if from < 256 {
      ListedKids(n, from + 1);
      KidAt(n, from);
      BytesStep(Abs(n).kids, from);
      ChildrenStep(n, from);
    } else {
      assert BytesFrom(Abs(n).kids, from) == {};
    }
  }

  lemma KidCount(n: Node)
    requires Sound(n) && !n.Leaf?
    ensures |Abs(n).kids| == ChildCount(n) == |Children(n)|
  {
    CountIsExact(n);
    ListedKids(n, 0);
    assert BytesFrom(Abs(n).kids, 0) == Abs(n).kids.Keys;
  }

  lemma {:induction false} ListedIsChild(n: Node, from: nat, i: nat)
    requires Shaped(n) && from <= 256 && i < |ChildrenFrom(n, from)|
    ensures var c := ChildrenFrom(n, from)[i]; from <= c.0 && ChildAt(n, c.0) == Some(c.1)
    decreases 256 - from
  {
    ChildrenStep(n, from);
    if ChildAt(n, from).None? {
      ListedIsChild(n, from + 1, i);
    } else if i > 0 {
      ListedIsChild(n, from + 1, i - 1);
    }
  }

  /** The only child of a node is the first one listed. */
  lemma FirstIsOnly(n: Node)
    requires Sound(n) && !n.Leaf? && ChildCount(n) == 1
    ensures |Children(n)| == 1 && |Abs(n).kids| == 1
    ensures Sound(Children(n)[0].1) && Abs(Children(n)[0].1) == OnlyKid(Abs(n).kids)
  {
    KidCount(n);
    ListedIsChild(n, 0, 0);
    var c := Children(n)[0];
    KidAt(n, c.0);
    OnlyKidIs(Abs(n).kids, c.0);
  }
}
