/** The recursive operations of the adaptive radix tree, and the tree as one map. */
module ArtTreeCode {
  import opened Wrappers
  import opened Bytes
  import opened ArtTrie
  import opened ArtInsert
  import opened ArtRemove
  import opened ArtNode
  import opened ArtNodeOps
  import opened ArtRefine
  import opened ArtMap
  import opened ArtOrder
  import opened ArtIteration
  import opened Lex

  // ---------------------------------------------------------------- insertion

  lemma PrefixKeepsChild(n: Node, prefix: Key, b: Byte)
    requires Shaped(n) && !n.Leaf?
    ensures Shaped(n.(prefix := prefix)) && ChildAt(n.(prefix := prefix), b) == ChildAt(n, b)
  {
  }

  method SetPrefix(n: Node, prefix: Key) returns (r: Node)
    requires Sound(n)
    ensures if n.Leaf? then r == n else Sound(r) && Abs(r) == Branch(prefix, Abs(n).kids)
  {
    if n.Leaf? {
      return n;
    }
    r := n.(prefix := prefix);
    PrefixKeepsChild(n, prefix, 0);
    forall b: Byte ensures ChildAt(r, b) == ChildAt(n, b) {
      PrefixKeepsChild(n, prefix, b);
    }
    AbsPrefixed(n, r);
  }

  method AddChild(n: Node, b: Byte, child: Node) returns (r: Node)
    requires Sound(n) && !n.Leaf? && Sound(child) && b !in Abs(n).kids
    ensures Sound(r) && Abs(r) == Branch(n.prefix, Abs(n).kids[b := Abs(child)])
  {
    KidAt(n, b);
    r := InsertChild(n, b, child);
    AbsUpdated(n, r, b, Some(child));
  }

  /** How many bytes two keys share from given positions on. */
  method MatchLength(a: Key, i: nat, b: Key, j: nat) returns (n: nat)
    ensures n == Common(a, b, i, j)
    ensures i + n >= |a| || j + n >= |b| || a[i + n] != b[j + n]
  {
    n := 0;
    while i + n < |a| && j + n < |b| && a[i + n] == b[j + n]
      invariant Common(a, b, i, j) == n + Common(a, b, i + n, j + n)
      decreases |a| - n
    {
      n := n + 1;
    }
  }

  /** A leaf whose key differs becomes a node over both keys. */
  method SplitLeaf(leaf: Node, key: Key, depth: nat, value: V) returns (r: Node)
    requires leaf.Leaf? && leaf.key != key && depth <= |key|
    ensures Sound(r) && Abs(r) == SplitTip(Tip(leaf.key, leaf.value), key, depth, value)
  {
    var common := MatchLength(key, depth, leaf.key, depth);
    var newDepth := depth + common;
    AbsLeaf(leaf.key, leaf.value);
    if newDepth >= |leaf.key| && newDepth >= |key| {
      return leaf;
    }
    r := NodeOver(key[depth..newDepth], leaf, key, newDepth, value);
  }

  method NodeOver(prefix: Key, leaf: Node, key: Key, newDepth: nat, value: V) returns (r: Node)
    requires leaf.Leaf? && (newDepth < |key| || newDepth < |leaf.key|)
    requires newDepth < |key| && newDepth < |leaf.key| ==> key[newDepth] != leaf.key[newDepth]
    ensures Sound(r)
    ensures Abs(r) == Branch(prefix,
              var left := if newDepth < |leaf.key| then map[leaf.key[newDepth] := Tip(leaf.key, leaf.value)] else map[];
              if newDepth < |key| then left[key[newDepth] := Tip(key, value)] else left)
  {
    r := Node4(prefix, [], []);
    AbsEmpty(prefix);
    AbsLeaf(leaf.key, leaf.value);
    AbsLeaf(key, value);
    var newLeaf := Leaf(key, value);
    if newDepth < |leaf.key| && newDepth < |key| {
      r := AddChild(r, leaf.key[newDepth], leaf);
      r := AddChild(r, key[newDepth], newLeaf);
    } else if newDepth >= |leaf.key| {
      r := AddChild(r, key[newDepth], newLeaf);
    } else {
      r := AddChild(r, leaf.key[newDepth], leaf);
    }
  }

  /** A node whose prefix the key leaves after `n` bytes goes below a new parent. */
  method SplitNode(node: Node, key: Key, depth: nat, n: nat, value: V) returns (r: Node)
    requires Sound(node) && !node.Leaf? && depth + n <= |key| && n < |node.prefix|
    requires depth + n == |key| || node.prefix[n] != key[depth + n]
    ensures Sound(r) && Abs(r) == SplitEdge(Abs(node), key, depth, n, value)
  {
    r := Node4(node.prefix[..n], [], []);
    AbsEmpty(r.prefix);
    var trimmed := SetPrefix(node, node.prefix[n + 1..]);
    r := AddChild(r, node.prefix[n], trimmed);
    if depth + n < |key| {
      r := AddChild(r, key[depth + n], Leaf(key, value));
    }
  }

  method InsertRecursive(slot: Option<Node>, key: Key, depth: nat, value: V) returns (r: Option<Node>, was: Option<V>)
    requires depth <= |key| && SoundSlot(slot)
    ensures r.Some? && Sound(r.value) && Abs(r.value) == InsertIn(AbsSlot(slot), key, depth, value)
    ensures was == LookupIn(AbsSlot(slot), key, depth)
    decreases |key| - depth, 2
  {
    if slot.None? {
      AbsLeaf(key, value);
      return Some(Leaf(key, value)), None;
    }
    var node;
    node, was := InsertNode(slot.value, key, depth, value);
    r := Some(node);
  }

  method InsertNode(node: Node, key: Key, depth: nat, value: V) returns (r: Node, was: Option<V>)
    requires depth <= |key| && Sound(node)
    ensures Sound(r) && Abs(r) == Insert(Abs(node), key, depth, value) && was == Lookup(Abs(node), key, depth)
    decreases |key| - depth, 1
  {
    if node.Leaf? {
      r, was := InsertAtLeaf(node, key, depth, value);
      return;
    }
    var matched := MatchLength(node.prefix, 0, key, depth);
    var newDepth := depth + |node.prefix|;
    InsertCases(Abs(node), key, depth, value, matched, newDepth);
    if matched < |node.prefix| {
      r := SplitNode(node, key, depth, matched, value);
      return r, None;
    }
    if newDepth >= |key| {
      return node, None;
    }
    r, was := InsertBelow(node, key, newDepth, value);
  }

  /** What meets a key at an interior node whose prefix shares `n` bytes with it. */
  lemma InsertCases(t: Trie, key: Key, depth: nat, value: V, n: nat, at: nat)
    requires t.Branch? && depth <= |key| && n == Common(t.prefix, key, 0, depth) && at == depth + |t.prefix|
    ensures n <= |t.prefix| && depth + n <= |key|
    ensures n < |t.prefix| ==>
              Insert(t, key, depth, value) == SplitEdge(t, key, depth, n, value) && Lookup(t, key, depth) == None
    ensures n == |t.prefix| && at >= |key| ==> Insert(t, key, depth, value) == t && Lookup(t, key, depth) == None
    ensures n == |t.prefix| && at < |key| ==>
              && Insert(t, key, depth, value) == Branch(t.prefix, t.kids[key[at] := InsertedKid(t, key, at, value)])
              && Lookup(t, key, depth) == if key[at] in t.kids then Lookup(t.kids[key[at]], key, at + 1) else None
  {
    LeavesPrefix(t, key, depth);
  }

  method InsertAtLeaf(leaf: Node, key: Key, depth: nat, value: V) returns (r: Node, was: Option<V>)
    requires leaf.Leaf? && depth <= |key|
    ensures var t := Tip(leaf.key, leaf.value);
            Sound(r) && Abs(r) == Insert(t, key, depth, value) && was == Lookup(t, key, depth)
  {
    if leaf.key == key {
      AbsLeaf(key, value);
      return Leaf(key, value), Some(leaf.value);
    }
    r := SplitLeaf(leaf, key, depth, value);
    was := None;
  }

  method InsertBelow(node: Node, key: Key, at: nat, value: V) returns (r: Node, was: Option<V>)
    requires Sound(node) && !node.Leaf? && |node.prefix| <= at < |key|
    ensures Sound(r)
    ensures Abs(r) == Branch(node.prefix, Abs(node).kids[key[at] := InsertedKid(Abs(node), key, at, value)])
    ensures was == if key[at] in Abs(node).kids then Lookup(Abs(node).kids[key[at]], key, at + 1) else None
    decreases |key| - at, 0
  {
    KidAt(node, key[at]);
    var found := FindChild(node, key[at]);
    if found.Some? {
      var child, rest := TakeChild(node, key[at]);
      var below;
      below, was := InsertRecursive(Some(child), key, at + 1, value);
      r := AddChild(rest, key[at], below.value);
      KidBack(Abs(node).kids, key[at], Abs(below.value));
    } else {
      AbsLeaf(key, value);
      r := AddChild(node, key[at], Leaf(key, value));
      was := None;
    }
  }

  method TakeChild(node: Node, b: Byte) returns (child: Node, rest: Node)
    requires Sound(node) && !node.Leaf? && b in Abs(node).kids
    ensures Sound(child) && Abs(child) == Abs(node).kids[b]
    ensures Sound(rest) && Abs(rest) == Branch(node.prefix, Abs(node).kids - {b})
  {
    KidAt(node, b);
    var c;
    c, rest := RemoveChild(node, b);
    child := c.value;
    AbsUpdated(node, rest, b, None);
  }

  lemma KidBack(kids: map<Byte, Trie>, b: Byte, child: Trie)
    ensures (kids - {b})[b := child] == kids[b := child]
  {
  }

  /** A key that leaves the prefix early is not below the node. */
  lemma LeavesPrefix(t: Trie, key: Key, depth: nat)
    requires t.Branch? && depth <= |key|
    ensures var n := Common(t.prefix, key, 0, depth);
            && n <= |t.prefix| && depth + n <= |key|
            && (n < |t.prefix| ==> Lookup(t, key, depth).None?)
            && (n == |t.prefix| ==> t.prefix == key[depth..depth + n])
  {
    var n := Common(t.prefix, key, 0, depth);
    CommonAgrees(t.prefix, key, 0, depth);
    LeavesAt(t, key, depth, n);
  }

  lemma LeavesAt(t: Trie, key: Key, depth: nat, n: nat)
    requires t.Branch? && depth <= |key| && Agree(t.prefix, key, 0, depth, n)
    ensures n < |t.prefix| ==> Lookup(t, key, depth).None?
    ensures n == |t.prefix| ==> t.prefix == key[depth..depth + n]
  {
    assert t.prefix[0..n] == t.prefix[..n];
    if n < |t.prefix| && depth + |t.prefix| <= |key| {
      assert key[depth..depth + |t.prefix|][n] == key[depth + n];
    }
  }

  // ---------------------------------------------------------------- lookup

  method Find(root: Option<Node>, key: Key) returns (r: Option<V>)
    requires SoundSlot(root)
    ensures r == LookupIn(AbsSlot(root), key, 0)
  {
    if root.None? {
      return None;
    }
    var node := root.value;
    if key == [] {
      return if node.Leaf? && node.key == [] then Some(node.value) else None;
    }
    var depth := 0;
    while true
      invariant depth <= |key| && Sound(node) && Lookup(Abs(node), key, depth) == LookupIn(AbsSlot(root), key, 0)
      decreases |key| - depth, if node.Leaf? then 0 else 1
    {
      if node.Leaf? {
        return if node.key == key then Some(node.value) else None;
      }
      if depth >= |key| {
        return None;
      }
      if !(node.prefix <= key[depth..]) {
        return None;
      }
      assert depth + |node.prefix| <= |key| && key[depth..depth + |node.prefix|] == node.prefix;
      depth := depth + |node.prefix|;
      if depth >= |key| {
        return None;
      }
      KidAt(node, key[depth]);
      var child := FindChild(node, key[depth]);
      if child.None? {
        return None;
      }
      node := child.value;
      depth := depth + 1;
    }
  }

  // ---------------------------------------------------------------- removal

  method RemoveRecursive(slot: Option<Node>, key: Key, depth: nat) returns (r: Option<Node>, was: Option<V>)
    requires depth <= |key| && SoundSlot(slot)
    ensures SoundSlot(r)
    ensures AbsSlot(r) == if slot.None? then None else Remove(Abs(slot.value), key, depth)
    ensures was == LookupIn(AbsSlot(slot), key, depth)
    decreases |key| - depth, 2
  {
    if slot.None? {
      return None, None;
    }
    r, was := RemoveNode(slot.value, key, depth);
  }

  lemma LeafRemoved(n: Node, key: Key, depth: nat)
    requires n.Leaf? && Sound(n) && depth <= |key|
    ensures Remove(Abs(n), key, depth) == if n.key == key then None else Some(Abs(n))
    ensures Lookup(Abs(n), key, depth) == if n.key == key then Some(n.value) else None
  {
  }

  method RemoveNode(node: Node, key: Key, depth: nat) returns (r: Option<Node>, was: Option<V>)
    requires depth <= |key| && Sound(node)
    ensures SoundSlot(r) && AbsSlot(r) == Remove(Abs(node), key, depth) && was == Lookup(Abs(node), key, depth)
    decreases |key| - depth, 1
  {
    ghost var t := Abs(node);
    if node.Leaf? {
      LeafRemoved(node, key, depth);
      if node.key == key {
        return None, Some(node.value);
      }
      return Some(node), None;
    }
    var newDepth := depth + |node.prefix|;
    if !(node.prefix <= key[depth..]) || newDepth >= |key| {
      MissesPrefix(t, key, depth);
      return Some(node), None;
    }
    RemoveDown(t, key, depth, newDepth);
    KidAt(node, key[newDepth]);
    var found := FindChild(node, key[newDepth]);
    if found.None? {
      return Some(node), None;
    }
    assert Remove(t, key, depth) == Some(RemovedBelow(t, key, newDepth));
    var left;
    left, was := RemoveBelow(node, key, newDepth);
    r := Some(left);
  }

  method RemoveBelow(node: Node, key: Key, at: nat) returns (r: Node, was: Option<V>)
    requires Sound(node) && !node.Leaf? && at < |key| && key[at] in Abs(node).kids
    ensures Sound(r) && Abs(r) == RemovedBelow(Abs(node), key, at)
    ensures was == Lookup(Abs(node).kids[key[at]], key, at + 1)
    decreases |key| - at, 0
  {
    var child, rest := TakeChild(node, key[at]);
    var below;
    below, was := RemoveRecursive(Some(child), key, at + 1);
    if below.Some? {
      rest := AddChild(rest, key[at], below.value);
      KidBack(Abs(node).kids, key[at], Abs(below.value));
    }
    r := rest;
    if was.Some? {
      r := Compress(rest);
    }
  }

  ghost function RemovedBelow(t: Trie, key: Key, at: nat): Trie
    requires t.Branch? && at < |key| && key[at] in t.kids
  {
    var left := WithoutChild(t.kids, key[at], Remove(t.kids[key[at]], key, at + 1));
    if |left| == 1 && Lookup(t.kids[key[at]], key, at + 1).Some? then OnlyKid(left) else Branch(t.prefix, left)
  }

  lemma MissesPrefix(t: Trie, key: Key, depth: nat)
    requires t.Branch? && depth <= |key|
    requires !(t.prefix <= key[depth..]) || depth + |t.prefix| >= |key|
    ensures Remove(t, key, depth) == Some(t) && Lookup(t, key, depth) == None
  {
    StartsWith(key, depth, t.prefix);
  }

  lemma StartsWith(key: Key, depth: nat, prefix: Key)
    requires depth <= |key|
    ensures prefix <= key[depth..] <==> depth + |prefix| <= |key| && key[depth..depth + |prefix|] == prefix
  {
    var d := depth + |prefix|;
    if d <= |key| {
      assert key[depth..][..|prefix|] == key[depth..d];
    }
  }

  lemma RemoveDown(t: Trie, key: Key, depth: nat, at: nat)
    requires t.Branch? && depth <= |key| && t.prefix <= key[depth..] && at == depth + |t.prefix| < |key|
    ensures key[at] !in t.kids ==> Remove(t, key, depth) == Some(t) && Lookup(t, key, depth) == None
    ensures key[at] in t.kids ==>
              && Remove(t, key, depth) == Some(RemovedBelow(t, key, at))
              && Lookup(t, key, depth) == Lookup(t.kids[key[at]], key, at + 1)
  {
    assert key[depth..depth + |t.prefix|] == t.prefix;
  }

  /** A node left with one child gives way to that child, as it is. */
  method Compress(node: Node) returns (r: Node)
    requires Sound(node) && !node.Leaf?
    ensures Sound(r) && Abs(r) == if |Abs(node).kids| == 1 then OnlyKid(Abs(node).kids) else Abs(node)
  {
    KidCount(node);
    if ChildCount(node) == 1 {
      FirstIsOnly(node);
      var children := IterChildren(node);
      r := children[0].1;
    } else {
      r := node;
    }
  }

  // ---------------------------------------------------------------- the tree

  class ArtTree {
    var root: Option<Node>
    var len: nat
    /** The map the tree stands for. */
    ghost var contents: map<Key, V>

    /** Every node keeps its layout, and lookups answer as `contents`. */
    ghost predicate Valid()
      reads this
    {
      SoundSlot(root) && Stores(AbsSlot(root), contents) && |contents| <= len
    }

    /** Every interior node has two children or more. */
    ghost predicate Branching()
      requires SoundSlot(root)
      reads this
    {
      root.Some? ==> Dense(Abs(root.value))
    }

    /** Removing `key` would move an interior node up into its parent's place. */
    ghost predicate MovesInteriorUp(key: Key)
      requires SoundSlot(root)
      reads this
    {
      root.Some? && InteriorSurvivor(Abs(root.value), key, 0)
    }

    constructor ()
      ensures Valid() && Branching() && contents == map[] && len == 0
    {
      root, len, contents := None, 0, map[];
    }

    method Insert(key: Key, value: V) returns (was: Option<V>)
      requires Valid()
      modifies this
      ensures Valid() && contents == Inserted(old(contents), key, value)
      ensures was == if key in old(contents) then Some(old(contents)[key]) else None
      ensures len == old(len) + if was.None? then 1 else 0
      ensures contents == old(contents)[key := value] <==> !Clash(old(contents), key)
      ensures !Clash(old(contents), key) && old(len) == |old(contents)| ==> len == |contents|
      ensures !Clash(old(contents), key) && old(Branching()) ==> Branching()
    {
      ghost var t, m := AbsSlot(root), contents;
      InsertKeepsTree(t, m, key, value, len);
      assert LookupIn(t, key, 0) == if key in m then Some(m[key]) else None;
      root, was := InsertRecursive(root, key, 0, value);
      contents := Inserted(contents, key, value);
      if was.None? {
        len := len + 1;
      }
    }

    method Get(key: Key) returns (r: Option<V>)
      requires Valid()
      ensures r == if key in contents then Some(contents[key]) else None
    {
      r := Find(root, key);
    }

    /** Takes the key out of the map, except that moving an interior node up loses other keys.  In
        any tree the leaves left are those of the other keys, and nothing else is ever found. */
    method RemoveKey(key: Key) returns (was: Option<V>)
      requires Valid()
      modifies this
      ensures was == if key in old(contents) then Some(old(contents)[key]) else None
      ensures contents == old(contents) - {key} && len == old(len) - if was.Some? then 1 else 0
      ensures SoundSlot(root) && Holds(AbsSlot(root), contents) && FindsOnly(AbsSlot(root), contents)
      ensures old(Branching()) ==> (Valid() <==> !old(MovesInteriorUp(key)))
      ensures old(Branching()) && Valid() ==> Branching()
    {
      ghost var t, m := AbsSlot(root), contents;
      assert LookupIn(t, key, 0) == if key in m then Some(m[key]) else None;
      if t.Some? && Dense(t.value) {
        RemoveKeepsTree(t.value, m, key);
      }
      RemoveTakesLeaf(t, m, key);
      root, was := RemoveRecursive(root, key, 0);
      contents := contents - {key};
      if was.Some? {
        FewerKeys(m, key);
        len := len - 1;
      }
    }

    /** An iterator over all entries. */
    method Iter() returns (it: ArtIter)
      requires Valid()
      ensures fresh(it) && it.Valid() && AscendingKeys(it.Rest())
      ensures forall k: Key, v: V :: (k, v) in it.Rest() <==> k in contents && contents[k] == v
    {
      if root.Some? {
        SpelledIsPeopled(Abs(root.value), []);
        EntriesExact(Abs(root.value));
      }
      it := new ArtIter(root);
      assert forall k: Key :: LookupIn(AbsSlot(root), k, 0) == if k in contents then Some(contents[k]) else None;
    }

    /** All entries with a key in `[start, end)`. */
    method RangeScan(start: Key, end: Key) returns (r: seq<Entry>)
      requires Valid()
      ensures AscendingKeys(r)
      ensures forall k: Key, v: V :: (k, v) in r <==> k in contents && contents[k] == v && !Less(k, start) && Less(k, end)
    {
      var it := Iter();
      WithinExact(it.Rest(), start, end);
      r := it.Collect(start, end);
    }
  }

  lemma FewerKeys(m: map<Key, V>, key: Key)
    requires key in m
    ensures |m - {key}| == |m| - 1
  {
    assert (m - {key}).Keys == m.Keys - {key};
  }

  lemma InsertKeepsTree(t: Option<Trie>, m: map<Key, V>, key: Key, value: V, len: nat)
    requires Stores(t, m) && |m| <= len
    ensures var after := Inserted(m, key, value);
            && Stores(Some(InsertIn(t, key, 0, value)), after)
            && (after == m[key := value] <==> !Clash(m, key))
            && |after| <= |m| + (if key in m then 0 else 1)
            && (!Clash(m, key) ==> |after| == |m| + (if key in m then 0 else 1))
            && (!Clash(m, key) && (t.Some? ==> Dense(t.value)) ==> Dense(InsertIn(t, key, 0, value)))
  {
    InsertStores(t, m, key, value);
    StoresPrefixFree(t, m);
    InsertedIsUpdate(m, key, value);
    InsertedSize(m, key, value);
    if !Clash(m, key) {
      UpdateKeepsPrefixFree(m, key, value);
      if t.Some? && Dense(t.value) {
        forall k: Key | Lookup(t.value, k, 0).Some? ensures !ProperPrefix(k, key) && !ProperPrefix(key, k) {
          assert LookupIn(t, k, 0).Some?;
        }
        InsertKeepsDense(t.value, [], key, value);
      }
    }
  }

  lemma InsertedSize(m: map<Key, V>, key: Key, value: V)
    ensures |Inserted(m, key, value)| <= |m| + (if key in m then 0 else 1)
  {
    if !EndsInside(m, key) {
      var kept := map k | k in m && !ProperPrefix(k, key) :: m[k];
      assert kept.Keys <= m.Keys;
      SubsetSize(kept.Keys, m.Keys);
      assert kept[key := value].Keys == kept.Keys + {key};
    }
  }

  lemma {:induction false} SubsetSize(a: set<Key>, b: set<Key>)
    requires a <= b
    ensures |a| <= |b|
  {
    if a != {} {
      var x :| x in a;
      SubsetSize(a - {x}, b - {x});
    }
  }

  /** The leaves of `t`, reachable or not, are the entries of `m`. */
  ghost predicate Holds(t: Option<Trie>, m: map<Key, V>) {
    forall k: Key, v: V :: HasTipIn(t, k, v) <==> k in m && m[k] == v
  }

  /** Whatever a lookup finds is in `m`. */
  ghost predicate FindsOnly(t: Option<Trie>, m: map<Key, V>) {
    forall k: Key :: LookupIn(t, k, 0).Some? ==> k in m && LookupIn(t, k, 0) == Some(m[k])
  }

  lemma StoredLeaves(t: Option<Trie>, m: map<Key, V>)
    requires Stores(t, m)
    ensures Holds(t, m)
  {
    forall k: Key, v: V ensures HasTipIn(t, k, v) <==> k in m && m[k] == v {
      assert LookupIn(t, k, 0) == if k in m then Some(m[k]) else None;
      if HasTipIn(t, k, v) {
        TipFound(t.value, [], k, v);
      }
      if k in m {
        FoundTip(t.value, k, 0);
      }
    }
  }

  lemma LeavesFound(t: Option<Trie>, m: map<Key, V>)
    requires Holds(t, m)
    ensures FindsOnly(t, m)
  {
    forall k: Key | LookupIn(t, k, 0).Some? ensures k in m && LookupIn(t, k, 0) == Some(m[k]) {
      FoundTip(t.value, k, 0);
      assert HasTipIn(t, k, LookupIn(t, k, 0).value);
    }
  }

  lemma RemoveTakesLeaf(t: Option<Trie>, m: map<Key, V>, key: Key)
    requires Stores(t, m)
    ensures var r := if t.None? then None else Remove(t.value, key, 0);
            Holds(r, m - {key}) && FindsOnly(r, m - {key})
  {
    var r := if t.None? then None else Remove(t.value, key, 0);
    StoredLeaves(t, m);
    forall k: Key, v: V ensures HasTipIn(r, k, v) <==> k in m - {key} && (m - {key})[k] == v {
      assert HasTipIn(t, k, v) <==> k in m && m[k] == v;
      if t.Some? {
        RemoveKeepsTips(t.value, [], key, k, v);
      }
    }
    LeavesFound(r, m - {key});
  }

  lemma RemoveKeepsTree(t: Trie, m: map<Key, V>, key: Key)
    requires Stores(Some(t), m) && Dense(t)
    ensures Stores(Remove(t, key, 0), m - {key}) <==> !InteriorSurvivor(t, key, 0)
    ensures !InteriorSurvivor(t, key, 0) && Remove(t, key, 0).Some? ==> Dense(Remove(t, key, 0).value)
  {
    var r := Remove(t, key, 0);
    if InteriorSurvivor(t, key, 0) {
      var k := RemoveLoses(t, [], key);
      assert LookupIn(Some(t), k, 0).Some?;
      assert LookupIn(r, k, 0).None?;
    } else {
      RemoveEffect(t, [], key, key);
      forall k: Key ensures LookupIn(r, k, 0) == if k in m - {key} then Some((m - {key})[k]) else None {
        RemoveEffect(t, [], key, k);
        assert LookupIn(Some(t), k, 0) == if k in m then Some(m[k]) else None;
      }
    }
  }
}
