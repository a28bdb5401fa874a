/** Insertion into the trie and its exact effect on every lookup. */
module ArtInsert {
  import opened Wrappers
  import opened Bytes
  import opened ArtTrie

  /** How many bytes `a` from position `i` and `b` from position `j` agree on. */
  function Common(a: Key, b: Key, i: nat, j: nat): (n: nat)
    ensures i <= |a| ==> i + n <= |a|
    ensures j <= |b| ==> j + n <= |b|
    decreases |a| - i
  {
    if i < |a| && j < |b| && a[i] == b[j] then 1 + Common(a, b, i + 1, j + 1) else 0
  }

  /** A leaf meets another key: both hang below their common bytes, unless one ends there. */
  function SplitTip(t: Trie, key: Key, depth: nat, value: V): Trie
    requires t.Tip? && depth <= |key|
  {
    var d := depth + Common(key, t.key, depth, depth);
    if d >= |t.key| && d >= |key| then t
    else
      var left := if d < |t.key| then map[t.key[d] := t] else map[];
      Branch(key[depth..d], if d < |key| then left[key[d] := Tip(key, value)] else left)
  }

  /** A compressed edge is cut where the key leaves it. */
  function SplitEdge(t: Trie, key: Key, depth: nat, n: nat, value: V): Trie
    requires t.Branch? && depth + n <= |key| && n < |t.prefix|
  {
    var lower := map[t.prefix[n] := Branch(t.prefix[n + 1..], t.kids)];
    Branch(t.prefix[..n], if depth + n < |key| then lower[key[depth + n] := Tip(key, value)] else lower)
  }

  function Insert(t: Trie, key: Key, depth: nat, value: V): Trie
    requires depth <= |key|
  {
    match t
    case Tip(k, _) => if k == key then Tip(key, value) else SplitTip(t, key, depth, value)
    case Branch(prefix, kids) =>
      var n := Common(prefix, key, 0, depth);
      var d := depth + |prefix|;
      if n < |prefix| then SplitEdge(t, key, depth, n, value)
      else if d >= |key| then t
      else if key[d] in kids then Branch(prefix, kids[key[d] := Insert(kids[key[d]], key, d + 1, value)])
      else Branch(prefix, kids[key[d] := Tip(key, value)])
  }

  function InsertIn(t: Option<Trie>, key: Key, depth: nat, value: V): Trie
    requires depth <= |key|
  {
    if t.None? then Tip(key, value) else Insert(t.value, key, depth, value)
  }

  /** `key` would end inside a longer stored key. */
  ghost predicate Blocked(t: Trie, key: Key, depth: nat)
    requires depth <= |key|
  {
    exists k :: ProperPrefix(key, k) && Lookup(t, k, depth).Some?
  }

  /** What `k` is mapped to once `key` has been inserted: interior nodes hold no values, so a
      stored proper prefix of the new key is dropped, and a new key that is a proper prefix of a
      stored one is not stored at all. */
  ghost function AfterInsert(t: Trie, key: Key, value: V, depth: nat, k: Key): Option<V>
    requires depth <= |key| && depth <= |k|
  {
    if k == key then (if Blocked(t, key, depth) then None else Some(value))
    else if ProperPrefix(k, key) then None
    else Lookup(t, k, depth)
  }

  /** The tree `r` is what inserting `key` below `path` should give, as far as `k` can tell. */
  ghost predicate Took(t: Trie, r: Trie, path: Key, key: Key, value: V, k: Key)
    requires path <= key && path <= k
  {
    Spelled(r, path) && Lookup(r, k, |path|) == AfterInsert(t, key, value, |path|, k)
  }

  // ---------------------------------------------------------------- common bytes

  /** `a` from `i` and `b` from `j` agree on `n` bytes and no further. */
  ghost predicate Agree(a: Key, b: Key, i: nat, j: nat, n: nat) {
    && i + n <= |a| && j + n <= |b| && a[i..i + n] == b[j..j + n]
    && (i + n == |a| || j + n == |b| || a[i + n] != b[j + n])
  }

  lemma AgreeStep(a: Key, b: Key, i: nat, j: nat, n: nat)
    requires i < |a| && j < |b| && a[i] == b[j] && Agree(a, b, i + 1, j + 1, n)
    ensures Agree(a, b, i, j, n + 1)
  {
    assert a[i..i + 1 + n] == [a[i]] + a[i + 1..i + 1 + n];
    assert b[j..j + 1 + n] == [b[j]] + b[j + 1..j + 1 + n];
  }

  lemma {:induction false} CommonAgrees(a: Key, b: Key, i: nat, j: nat)
    requires i <= |a| && j <= |b|
    ensures Agree(a, b, i, j, Common(a, b, i, j))
    decreases |a| - i
  {
    if i < |a| && j < |b| && a[i] == b[j] {
      CommonAgrees(a, b, i + 1, j + 1);
      AgreeStep(a, b, i, j, Common(a, b, i + 1, j + 1));
    }
  }

  /** A key under `path` leaves a prefix that continues the path after `n` bytes, or passes it. */
  ghost predicate Parts(path: Key, prefix: Key, key: Key, n: nat) {
    && n <= |prefix| && |path| + n <= |key| && path + prefix[..n] <= key
    && (n == |prefix| ==> path + prefix <= key)
    && (n < |prefix| && |path| + n < |key| ==> prefix[n] != key[|path| + n])
  }

  lemma AgreeParts(path: Key, prefix: Key, key: Key, n: nat)
    requires path <= key && Agree(prefix, key, 0, |path|, n)
    ensures Parts(path, prefix, key, n)
  {
    assert key[..|path| + n] == path + key[|path|..|path| + n];
    assert prefix[0..n] == prefix[..n];
  }

  lemma CommonPath(path: Key, prefix: Key, key: Key)
    requires path <= key
    ensures Parts(path, prefix, key, Common(prefix, key, 0, |path|))
  {
    CommonAgrees(prefix, key, 0, |path|);
    AgreeParts(path, prefix, key, Common(prefix, key, 0, |path|));
  }

  /** Two keys under `path` agree up to position `d` and part there. */
  ghost predicate PartAt(path: Key, a: Key, b: Key, d: nat) {
    && |path| <= d <= |a| && d <= |b| && a[..d] == b[..d] && path + a[|path|..d] == a[..d]
    && (d == |a| || d == |b| || a[d] != b[d])
  }

  lemma AgreePartAt(path: Key, a: Key, b: Key, n: nat)
    requires path <= a && path <= b && Agree(a, b, |path|, |path|, n)
    ensures PartAt(path, a, b, |path| + n)
  {
    var d := |path| + n;
    assert a[..d] == path + a[|path|..d] && b[..d] == path + b[|path|..d];
  }

  lemma CommonKeys(path: Key, a: Key, b: Key)
    requires path <= a && path <= b
    ensures PartAt(path, a, b, |path| + Common(a, b, |path|, |path|))
  {
    CommonAgrees(a, b, |path|, |path|);
    AgreePartAt(path, a, b, Common(a, b, |path|, |path|));
  }

  // ---------------------------------------------------------------- splitting a leaf

  lemma TwoLeaves(path: Key, prefix: Key, kids: map<Byte, Trie>, k: Key)
    requires path <= k && forall b :: b in kids ==> kids[b].Tip? && path + prefix + [b] <= kids[b].key
    ensures Lookup(Branch(prefix, kids), k, |path|) ==
            if exists b :: b in kids && kids[b].key == k then Some(kids[k[|path + prefix|]].value) else None
    ensures forall b :: b in kids && kids[b].key == k ==> |path + prefix| < |k| && k[|path + prefix|] == b
  {
    var t, at := Branch(prefix, kids), path + prefix;
    LookupBranch(t, path, k);
    forall b | b in kids && kids[b].key == k ensures at <= k && |at| < |k| && k[|at|] == b {
      BelowByte(at, b, k);
    }
  }

  /** The leaves under a split and the keys they stand for. */
  lemma SplitTipKids(t: Trie, key: Key, d: nat, kids: map<Byte, Trie>, value: V)
    requires t.Tip? && t.key != key && d <= |key| && d <= |t.key| && key[..d] == t.key[..d]
    requires d == |key| || d == |t.key| || key[d] != t.key[d]
    requires var left := if d < |t.key| then map[t.key[d] := t] else map[];
             kids == if d < |key| then left[key[d] := Tip(key, value)] else left
    ensures kids != map[]
    ensures forall b :: b in kids ==> kids[b].Tip? && key[..d] + [b] <= kids[b].key
    ensures d < |key| <==> !ProperPrefix(key, t.key)
    ensures d < |t.key| <==> !ProperPrefix(t.key, key)
    ensures d < |key| ==> key[d] in kids && kids[key[d]] == Tip(key, value)
    ensures d < |t.key| ==> t.key[d] in kids && kids[t.key[d]] == t
    ensures forall b :: b in kids ==> (d < |key| && b == key[d]) || (d < |t.key| && b == t.key[d])
  {
    if d < |key| {
      assert key[..d] + [key[d]] <= key;
      assert key[d] in kids;
    }
    if d < |t.key| {
      assert key[..d] + [t.key[d]] <= t.key;
      assert t.key[d] in kids;
    }
    assert key[..|key|] == key && t.key[..|t.key|] == t.key;
  }

  lemma TipBlocked(t: Trie, key: Key, depth: nat)
    requires t.Tip? && depth <= |key|
    ensures Blocked(t, key, depth) <==> ProperPrefix(key, t.key)
  {
    if ProperPrefix(key, t.key) {
      assert Lookup(t, t.key, depth).Some?;
    }
  }

  lemma SplitTipTakes(t: Trie, path: Key, key: Key, value: V, k: Key)
    requires t.Tip? && t.key != key && path <= t.key && path <= key && path <= k
    ensures Took(t, SplitTip(t, key, |path|, value), path, key, value, k)
  {
    var d := |path| + Common(key, t.key, |path|, |path|);
    var r := SplitTip(t, key, |path|, value);
    CommonKeys(path, key, t.key);
    assert key[..|key|] == key && t.key[..|t.key|] == t.key;
    SplitTipKids(t, key, d, r.kids, value);
    TwoLeaves(path, r.prefix, r.kids, k);
    TipBlocked(t, key, |path|);
  }

  // ---------------------------------------------------------------- splitting an edge

  lemma CutPath(path: Key, prefix: Key, n: nat)
    requires n < |prefix|
    ensures path + prefix[..n] + [prefix[n]] + prefix[n + 1..] == path + prefix
    ensures path + prefix[..n] <= path + prefix && path <= path + prefix[..n] + [prefix[n]]
  {
  }

  lemma StoredGoesOn(t: Trie, path: Key, k: Key, n: nat)
    requires Spelled(t, path) && t.Branch? && |path| <= |k| && Lookup(t, k, |path|).Some? && n < |t.prefix|
    ensures |path| + n < |k| && k[|path| + n] == t.prefix[n] && path + t.prefix[..n] <= k
  {
    StoredAt(t, path, k);
    CutPath(path, t.prefix, n);
    assert k[|path| + n] == (path + t.prefix)[|path| + n];
  }

  /** Two nodes with the same children under the same full path answer alike. */
  lemma SamePathLookup(a: Trie, pathA: Key, b: Trie, pathB: Key, k: Key)
    requires a.Branch? && b.Branch? && a.kids == b.kids && pathA + a.prefix == pathB + b.prefix
    requires pathA <= k && pathB <= k
    ensures Lookup(a, k, |pathA|) == Lookup(b, k, |pathB|)
  {
    LookupBranch(a, pathA, k);
    LookupBranch(b, pathB, k);
  }

  /** Behind the new branch, the cut edge answers as before. */
  lemma CutLookup(t: Trie, path: Key, upper: Key, c: Byte, cut: Trie, k: Key)
    requires t.Branch? && cut.Branch? && path <= k && upper == path + cut.prefix
    requires c in cut.kids && cut.kids[c].Branch?
    requires cut.kids[c].kids == t.kids && upper + [c] + cut.kids[c].prefix == path + t.prefix
    ensures Lookup(cut, k, |path|) ==
            if upper <= k && |upper| < |k| && k[|upper|] in cut.kids
            then (if k[|upper|] == c then Lookup(t, k, |path|) else Lookup(cut.kids[k[|upper|]], k, |upper| + 1))
            else None
  {
    LookupBranch(cut, path, k);
    if upper <= k && |upper| < |k| && k[|upper|] == c {
      NextByte(upper, c, k);
      SamePathLookup(t, path, cut.kids[c], upper + [c], k);
    }
  }

  /** The key leaves the prefix of `t` after `n` bytes. */
  ghost predicate Leaves(t: Trie, path: Key, key: Key, n: nat) {
    && t.Branch? && n < |t.prefix| && path <= key && |path| + n <= |key| && path + t.prefix[..n] <= key
    && (|path| + n == |key| || t.prefix[n] != key[|path| + n])
  }

  lemma SplitEdgeSpelled(t: Trie, path: Key, key: Key, n: nat, value: V)
    requires Leaves(t, path, key, n) && Spelled(t, path)
    ensures Spelled(SplitEdge(t, key, |path|, n, value), path)
  {
    var r := SplitEdge(t, key, |path|, n, value);
    CutPath(path, t.prefix, n);
    assert t.prefix[n] in r.kids;
    if |path| + n < |key| {
      NextByte(path + t.prefix[..n], key[|path| + n], key);
    }
  }

  lemma SplitEdgeBlocked(t: Trie, path: Key, key: Key, n: nat)
    requires Leaves(t, path, key, n) && Spelled(t, path)
    ensures Blocked(t, key, |path|) <==> |path| + n == |key|
  {
    if |path| + n == |key| {
      var k := SomeKey(t, path);
      StoredGoesOn(t, path, k, n);
      assert key == path + t.prefix[..n];
      assert ProperPrefix(key, k);
    } else {
      forall k | ProperPrefix(key, k) ensures Lookup(t, k, |path|).None? {
        if Lookup(t, k, |path|).Some? {
          StoredGoesOn(t, path, k, n);
        }
      }
    }
  }

  lemma SplitEdgeTakes(t: Trie, path: Key, key: Key, n: nat, value: V, k: Key)
    requires Leaves(t, path, key, n) && Spelled(t, path) && path <= k
    ensures Took(t, SplitEdge(t, key, |path|, n, value), path, key, value, k)
  {
    var r, at := SplitEdge(t, key, |path|, n, value), path + t.prefix[..n];
    SplitEdgeSpelled(t, path, key, n, value);
    SplitEdgeBlocked(t, path, key, n);
    CutPath(path, t.prefix, n);
    CutLookup(t, path, at, t.prefix[n], r, k);
    if Lookup(t, k, |path|).Some? {
      StoredGoesOn(t, path, k, n);
    }
  }

  // ---------------------------------------------------------------- passing a node

  /** The key ends where a node branches: it is blocked and the tree stays as it is. */
  lemma ExhaustedTakes(t: Trie, path: Key, key: Key, value: V, k: Key)
    requires t.Branch? && Spelled(t, path) && path + t.prefix == key && path <= key && path <= k
    ensures Took(t, t, path, key, value, k)
  {
    var other := SomeKey(t, path);
    StoredAt(t, path, other);
    assert ProperPrefix(key, other);
    if Lookup(t, k, |path|).Some? {
      StoredAt(t, path, k);
    }
  }

  lemma StoredElsewhere(t: Trie, path: Key, b: Byte, k: Key)
    requires Spelled(t, path) && t.Branch? && b !in t.kids && path + t.prefix + [b] <= k
    ensures |path| <= |k| && Lookup(t, k, |path|).None?
  {
    BelowByte(path + t.prefix, b, k);
    assert path <= path + t.prefix <= k;
    LookupBranch(t, path, k);
  }

  /** Under a byte without a child nothing longer is stored. */
  lemma NewTipBlocked(t: Trie, path: Key, b: Byte, key: Key)
    requires Spelled(t, path) && t.Branch? && b !in t.kids && path <= key && path + t.prefix + [b] <= key
    ensures !Blocked(t, key, |path|)
  {
    forall k | ProperPrefix(key, k) ensures Lookup(t, k, |path|).None? {
      assert path + t.prefix + [b] <= key <= k;
      StoredElsewhere(t, path, b, k);
    }
  }

  /** A key on its way through a node is not a longer version of a key stored elsewhere in it. */
  lemma ShorterIsElsewhere(t: Trie, path: Key, b: Byte, key: Key, k: Key)
    requires Spelled(t, path) && t.Branch? && path <= k && path + t.prefix + [b] <= key
    requires !(path + t.prefix + [b] <= k) && k <= key
    ensures Lookup(t, k, |path|).None?
  {
    if Lookup(t, k, |path|).Some? {
      var at := path + t.prefix;
      StoredAt(t, path, k);
      BelowByte(at, b, key);
      NextByte(at, b, k);
    }
  }

  /** The key branches off where no child is: a leaf of its own. */
  lemma NewTipTakes(t: Trie, path: Key, b: Byte, key: Key, value: V, k: Key)
    requires t.Branch? && Spelled(t, path) && b !in t.kids && path + t.prefix + [b] <= key && path <= key && path <= k
    ensures Took(t, Branch(t.prefix, t.kids[b := Tip(key, value)]), path, key, value, k)
  {
    LookupUpdated(t, path, b, Tip(key, value), k);
    NewTipBlocked(t, path, b, key);
    if path + t.prefix + [b] <= k {
      StoredElsewhere(t, path, b, k);
    } else if k <= key {
      ShorterIsElsewhere(t, path, b, key, k);
    }
  }

  lemma BlockedBelow(t: Trie, path: Key, b: Byte, key: Key)
    requires t.Branch? && b in t.kids && path <= key && path + t.prefix + [b] <= key
    ensures Blocked(t, key, |path|) <==> Blocked(t.kids[b], key, |path + t.prefix| + 1)
  {
    forall k | ProperPrefix(key, k)
      ensures |path| <= |k| && Lookup(t, k, |path|) == Lookup(t.kids[b], k, |path + t.prefix| + 1)
    {
      assert path + t.prefix + [b] <= key <= k;
      LookupThrough(t, path, b, k);
    }
  }

  /** The key goes on below a child. */
  lemma DescendTakes(t: Trie, path: Key, b: Byte, key: Key, value: V, k: Key, child: Trie)
    requires t.Branch? && Spelled(t, path) && b in t.kids && path + t.prefix + [b] <= key && path <= key && path <= k
    requires Spelled(child, path + t.prefix + [b])
    requires path + t.prefix + [b] <= k ==> Took(t.kids[b], child, path + t.prefix + [b], key, value, k)
    ensures Took(t, Branch(t.prefix, t.kids[b := child]), path, key, value, k)
  {
    LookupUpdated(t, path, b, child, k);
    BlockedBelow(t, path, b, key);
    if path + t.prefix + [b] <= k {
      LookupThrough(t, path, b, k);
    } else if k <= key {
      ShorterIsElsewhere(t, path, b, key, k);
    }
  }

  // ---------------------------------------------------------------- the whole insertion

  /** The key passes the prefix of `t` and goes on with `b`. */
  ghost predicate Passes(t: Trie, path: Key, key: Key, b: Byte) {
    && t.Branch? && path <= key && path + t.prefix + [b] <= key
    && Common(t.prefix, key, 0, |path|) == |t.prefix| && |path + t.prefix| < |key| && key[|path + t.prefix|] == b
  }

  lemma PassesWith(t: Trie, path: Key, key: Key)
    requires t.Branch? && path <= key && Common(t.prefix, key, 0, |path|) == |t.prefix| && |path + t.prefix| < |key|
    ensures Passes(t, path, key, key[|path + t.prefix|])
  {
    CommonPath(path, t.prefix, key);
    NextByte(path + t.prefix, key[|path + t.prefix|], key);
  }

  /** One step of `Insert` through a node whose prefix the key passes. */
  lemma InsertInside(t: Trie, path: Key, key: Key, b: Byte, value: V)
    requires Passes(t, path, key, b)
    ensures Insert(t, key, |path|, value) == Branch(t.prefix, t.kids[b := InsertedKid(t, key, |path + t.prefix|, value)])
  {
  }

  function InsertedKid(t: Trie, key: Key, at: nat, value: V): Trie
    requires t.Branch? && at < |key|
  {
    if key[at] in t.kids then Insert(t.kids[key[at]], key, at + 1, value) else Tip(key, value)
  }

  lemma InsertShort(t: Trie, path: Key, key: Key, value: V, k: Key)
    requires Spelled(t, path) && path <= key && path <= k
    requires t.Branch? ==> Common(t.prefix, key, 0, |path|) < |t.prefix| || |path + t.prefix| >= |key|
    ensures Took(t, Insert(t, key, |path|, value), path, key, value, k)
  {
    if t.Tip? {
      TipBlocked(t, key, |path|);
      if t.key != key {
        SplitTipTakes(t, path, key, value, k);
      }
    } else {
      CommonPath(path, t.prefix, key);
      var n := Common(t.prefix, key, 0, |path|);
      if n < |t.prefix| {
        SplitEdgeTakes(t, path, key, n, value, k);
      } else {
        ExhaustedTakes(t, path, key, value, k);
      }
    }
  }

  /** An insertion changes the map exactly as `AfterInsert` says, for every key. */
  lemma {:induction false} InsertEffect(t: Trie, path: Key, key: Key, value: V, k: Key)
    requires Spelled(t, path) && path <= key && path <= k
    ensures Took(t, Insert(t, key, |path|, value), path, key, value, k)
    decreases t, 1
  {
    if t.Branch? && Common(t.prefix, key, 0, |path|) == |t.prefix| && |path + t.prefix| < |key| {
      var b := key[|path + t.prefix|];
      PassesWith(t, path, key);
      InsertInside(t, path, key, b, value);
      if b in t.kids {
        InsertBelow(t, path, key, b, value, k);
      } else {
        NewTipTakes(t, path, b, key, value, k);
      }
    } else {
      InsertShort(t, path, key, value, k);
    }
  }

  lemma {:induction false} InsertBelow(t: Trie, path: Key, key: Key, b: Byte, value: V, k: Key)
    requires Passes(t, path, key, b) && Spelled(t, path) && b in t.kids && path <= k
    ensures var kid := Insert(t.kids[b], key, |path + t.prefix| + 1, value);
            Took(t, Branch(t.prefix, t.kids[b := kid]), path, key, value, k)
    decreases t, 0
  {
    var below := path + t.prefix + [b];
    InsertEffect(t.kids[b], below, key, value, if below <= k then k else key);
    DescendTakes(t, path, b, key, value, k, Insert(t.kids[b], key, |below|, value));
  }
}
