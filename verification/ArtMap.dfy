/** The map a radix tree holds, and what an insertion does to it whatever the key. */
module ArtMap {
  import opened Wrappers
  import opened Bytes
  import opened ArtTrie
  import opened ArtInsert
  import opened ArtRemove

  /** The tree answers every key as the map does. */
  ghost predicate Stores(t: Option<Trie>, m: map<Key, V>) {
    && (t.Some? ==> Spelled(t.value, []))
    && forall k: Key :: LookupIn(t, k, 0) == if k in m then Some(m[k]) else None
  }

  ghost predicate EndsInside(m: map<Key, V>, key: Key) { exists k :: k in m && ProperPrefix(key, k) }

  /** A key of the map is a proper prefix of `key`, or the other way round. */
  ghost predicate Clash(m: map<Key, V>, key: Key) {
    EndsInside(m, key) || exists k :: k in m && ProperPrefix(k, key)
  }

  ghost predicate PrefixFree(m: map<Key, V>) { forall a, b :: a in m && b in m ==> !ProperPrefix(a, b) }

  /** The new key is dropped when it ends inside another one; otherwise it displaces its own prefixes. */
  ghost function Inserted(m: map<Key, V>, key: Key, value: V): map<Key, V> {
    if EndsInside(m, key) then m else (map k | k in m && !ProperPrefix(k, key) :: m[k])[key := value]
  }

  lemma StoresPrefixFree(t: Option<Trie>, m: map<Key, V>)
    requires Stores(t, m)
    ensures PrefixFree(m)
  {
    forall a, b | a in m && b in m && a <= b ensures a == b {
      assert LookupIn(t, a, 0).Some? && LookupIn(t, b, 0).Some?;
      StoredPrefixFree(t.value, [], a, b);
    }
  }

  lemma BlockedStored(t: Option<Trie>, m: map<Key, V>, key: Key)
    requires Stores(t, m)
    ensures t.Some? ==> (Blocked(t.value, key, 0) <==> EndsInside(m, key))
    ensures t.None? ==> m == map[]
  {
    if t.Some? {
      if Blocked(t.value, key, 0) {
        var k :| ProperPrefix(key, k) && Lookup(t.value, k, 0).Some?;
        assert LookupIn(t, k, 0).Some?;
      }
      if EndsInside(m, key) {
        var k :| k in m && ProperPrefix(key, k);
        assert LookupIn(t, k, 0).Some?;
      }
    } else {
      forall k: Key ensures k !in m {
        assert LookupIn(t, k, 0).None?;
      }
    }
  }

  lemma AfterIsInserted(t: Trie, m: map<Key, V>, key: Key, value: V, k: Key)
    requires Stores(Some(t), m)
    ensures var after := Inserted(m, key, value);
            AfterInsert(t, key, value, 0, k) == if k in after then Some(after[k]) else None
  {
    BlockedStored(Some(t), m, key);
    assert LookupIn(Some(t), k, 0) == if k in m then Some(m[k]) else None;
    if EndsInside(m, key) {
      StoresPrefixFree(Some(t), m);
    }
  }

  /** Insertion refines `Inserted`, for every tree, key and value. */
  lemma InsertStores(t: Option<Trie>, m: map<Key, V>, key: Key, value: V)
    requires Stores(t, m)
    ensures Stores(Some(InsertIn(t, key, 0, value)), Inserted(m, key, value))
  {
    var r, after := InsertIn(t, key, 0, value), Inserted(m, key, value);
    BlockedStored(t, m, key);
    if t.Some? {
      InsertEffect(t.value, [], key, value, []);
      forall k: Key ensures LookupIn(Some(r), k, 0) == if k in after then Some(after[k]) else None {
        InsertEffect(t.value, [], key, value, k);
        AfterIsInserted(t.value, m, key, value, k);
      }
    }
  }

  /** An insertion is a plain map update if and only if the key clashes with no other one. */
  lemma InsertedIsUpdate(m: map<Key, V>, key: Key, value: V)
    requires PrefixFree(m)
    ensures Inserted(m, key, value) == m[key := value] <==> !Clash(m, key)
  {
    var after := Inserted(m, key, value);
    if EndsInside(m, key) {
      assert key !in m && key in m[key := value];
    } else if Clash(m, key) {
      var k :| k in m && ProperPrefix(k, key);
      assert k !in after && k in m[key := value];
    } else {
      assert (map k | k in m && !ProperPrefix(k, key) :: m[k]) == m;
    }
  }

  lemma UpdateKeepsPrefixFree(m: map<Key, V>, key: Key, value: V)
    requires PrefixFree(m) && !Clash(m, key)
    ensures PrefixFree(m[key := value])
    ensures |m[key := value]| == |m| + if key in m then 0 else 1
  {
    assert m[key := value].Keys == m.Keys + {key};
  }

  // ---------------------------------------------------------------- branching

  ghost predicate NoClash(t: Trie, key: Key, depth: nat) {
    forall k: Key :: depth <= |k| && Lookup(t, k, depth).Some? ==> !ProperPrefix(k, key) && !ProperPrefix(key, k)
  }

  lemma ClashBlocked(t: Trie, key: Key, depth: nat)
    requires depth <= |key| && NoClash(t, key, depth)
    ensures !Blocked(t, key, depth)
  {
  }

  lemma DensePair(prefix: Key, a: Byte, s: Trie, b: Byte, t: Trie)
    requires a != b && Dense(s) && Dense(t)
    ensures Dense(Branch(prefix, map[a := s][b := t]))
  {
    assert map[a := s][b := t].Keys == {a, b};
  }

  lemma DenseReplaced(t: Trie, b: Byte, child: Trie)
    requires t.Branch? && Dense(t) && Dense(child)
    ensures Dense(Branch(t.prefix, t.kids[b := child]))
  {
    if b in t.kids {
      assert t.kids[b := child].Keys == t.kids.Keys;
    } else {
      assert t.kids[b := child].Keys == t.kids.Keys + {b};
    }
  }

  lemma FoundThrough(t: Trie, path: Key, b: Byte, k: Key)
    requires t.Branch? && Spelled(t, path) && b in t.kids
    requires |path + t.prefix| + 1 <= |k| && Lookup(t.kids[b], k, |path + t.prefix| + 1).Some?
    ensures Lookup(t, k, |path|).Some?
  {
    FoundIsBelow(t.kids[b], path + t.prefix + [b], k, |path + t.prefix| + 1);
    LookupThrough(t, path, b, k);
  }

  lemma NoClashBelow(t: Trie, path: Key, b: Byte, key: Key)
    requires t.Branch? && Spelled(t, path) && b in t.kids && NoClash(t, key, |path|)
    ensures NoClash(t.kids[b], key, |path + t.prefix| + 1)
  {
    forall k: Key | |path + t.prefix| + 1 <= |k| && Lookup(t.kids[b], k, |path + t.prefix| + 1).Some?
      ensures !ProperPrefix(k, key) && !ProperPrefix(key, k)
    {
      FoundThrough(t, path, b, k);
    }
  }

  lemma DenseSplitTip(t: Trie, path: Key, key: Key, value: V)
    requires t.Tip? && t.key != key && path <= key && path <= t.key
    requires !ProperPrefix(key, t.key) && !ProperPrefix(t.key, key)
    ensures Dense(SplitTip(t, key, |path|, value))
  {
    var d := |path| + Common(key, t.key, |path|, |path|);
    CommonKeys(path, key, t.key);
    assert key[..|key|] == key && t.key[..|t.key|] == t.key;
    DensePair(key[|path|..d], t.key[d], t, key[d], Tip(key, value));
  }

  lemma DenseSplitEdge(t: Trie, path: Key, key: Key, n: nat, value: V)
    requires Leaves(t, path, key, n) && Spelled(t, path) && Dense(t) && NoClash(t, key, |path|)
    ensures Dense(SplitEdge(t, key, |path|, n, value))
  {
    SplitEdgeBlocked(t, path, key, n);
    ClashBlocked(t, key, |path|);
    DensePair(t.prefix[..n], t.prefix[n], Branch(t.prefix[n + 1..], t.kids), key[|path| + n], Tip(key, value));
  }

  lemma ShortKeepsDense(t: Trie, path: Key, key: Key, value: V)
    requires path <= key && Spelled(t, path) && Dense(t) && NoClash(t, key, |path|)
    requires t.Branch? ==> Common(t.prefix, key, 0, |path|) < |t.prefix| || |path + t.prefix| >= |key|
    ensures Dense(Insert(t, key, |path|, value))
  {
    if t.Tip? {
      if t.key != key {
        assert Lookup(t, t.key, |path|).Some?;
        DenseSplitTip(t, path, key, value);
      }
    } else {
      CommonPath(path, t.prefix, key);
      if Common(t.prefix, key, 0, |path|) < |t.prefix| {
        DenseSplitEdge(t, path, key, Common(t.prefix, key, 0, |path|), value);
      }
    }
  }

  /** Inserting a key that clashes with none keeps every interior node branching. */
  lemma {:induction false} InsertKeepsDense(t: Trie, path: Key, key: Key, value: V)
    requires path <= key && Spelled(t, path) && Dense(t) && NoClash(t, key, |path|)
    ensures Dense(Insert(t, key, |path|, value))
    decreases t, 1
  {
    if t.Branch? && Common(t.prefix, key, 0, |path|) == |t.prefix| && |path + t.prefix| < |key| {
      var b := key[|path + t.prefix|];
      PassesWith(t, path, key);
      InsertInside(t, path, key, b, value);
      KidKeepsDense(t, path, key, b, value);
      DenseReplaced(t, b, InsertedKid(t, key, |path + t.prefix|, value));
    } else {
      ShortKeepsDense(t, path, key, value);
    }
  }

  lemma {:induction false} KidKeepsDense(t: Trie, path: Key, key: Key, b: Byte, value: V)
    requires Passes(t, path, key, b) && Spelled(t, path) && Dense(t) && NoClash(t, key, |path|)
    ensures Dense(InsertedKid(t, key, |path + t.prefix|, value))
    decreases t, 0
  {
    if b in t.kids {
      NoClashBelow(t, path, b, key);
      InsertKeepsDense(t.kids[b], path + t.prefix + [b], key, value);
    }
  }
}
