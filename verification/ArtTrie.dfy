/** The radix tree without its node layouts: a path-compressed trie, its lookups and what an
    insertion does to them. */
module ArtTrie {
  import opened Wrappers
  import opened Bytes

  type Key = seq<Byte>

  /** What the tree stores: the engine's row locator. */
  datatype V = RowLocator(segment: nat, block: nat, slot: nat)

  datatype Trie = Tip(key: Key, value: V) | Branch(prefix: Key, kids: map<Byte, Trie>)

  predicate ProperPrefix(a: Key, b: Key) { a <= b && a != b }

  /** Keys below `t` start with `path`; branch bytes and prefixes spell it out; no branch is bare. */
  ghost predicate Spelled(t: Trie, path: Key) {
    match t
    case Tip(key, _) => path <= key
    case Branch(prefix, kids) =>
      && kids != map[]
      && forall b :: b in kids ==> Spelled(kids[b], path + prefix + [b])
  }

  /** The descent of `get`. */
  function Lookup(t: Trie, key: Key, depth: nat): Option<V>
    requires depth <= |key|
  {
    match t
    case Tip(k, value) => if k == key then Some(value) else None
    case Branch(prefix, kids) =>
      var d := depth + |prefix|;
      if d >= |key| || key[depth..d] != prefix || key[d] !in kids then None
      else Lookup(kids[key[d]], key, d + 1)
  }

  function LookupIn(t: Option<Trie>, key: Key, depth: nat): Option<V>
    requires depth <= |key|
  {
    if t.None? then None else Lookup(t.value, key, depth)
  }

  // ---------------------------------------------------------------- facts about lookups

  lemma PrefixStep(path: Key, prefix: Key, b: Byte, key: Key)
    requires |path| <= |key|
    ensures path + prefix + [b] <= key <==>
            path <= key && |path| + |prefix| < |key| && key[|path|..|path| + |prefix|] == prefix && key[|path| + |prefix|] == b
  {
    var at := path + prefix;
    if path <= key && |at| < |key| && key[|path|..|at|] == prefix && key[|at|] == b {
      assert key[..|at|] == key[..|path|] + key[|path|..|at|];
      assert key[..|at| + 1] == at + [b];
    }
    if at + [b] <= key {
      assert key[|at|] == (at + [b])[|at|];
      assert key[|path|..|at|] == (at + [b])[|path|..|at|] == prefix;
      assert key[..|path|] == (at + [b])[..|path|] == path;
    }
  }

  /** Whatever depth it starts from, a lookup only finds keys placed below the node. */
  lemma {:induction false} FoundIsBelow(t: Trie, path: Key, key: Key, depth: nat)
    requires Spelled(t, path) && depth <= |key| && Lookup(t, key, depth).Some?
    ensures path <= key
    ensures t.Branch? ==> exists b :: b in t.kids && path + t.prefix + [b] <= key
  {
    if t.Branch? {
      var d := depth + |t.prefix|;
      FoundIsBelow(t.kids[key[d]], path + t.prefix + [key[d]], key, d + 1);
      PrefixStep(path, t.prefix, key[d], key);
    }
  }

  /** Under its own path, a key is looked up through the child its next byte names. */
  lemma LookupBranch(t: Trie, path: Key, key: Key)
    requires t.Branch? && path <= key
    ensures var at := path + t.prefix;
            Lookup(t, key, |path|) ==
            if at <= key && |at| < |key| && key[|at|] in t.kids then Lookup(t.kids[key[|at|]], key, |at| + 1) else None
  {
    var at := path + t.prefix;
    if |at| < |key| {
      assert key[..|at|] == key[..|path|] + key[|path|..|at|];
      assert at <= key <==> key[|path|..|at|] == t.prefix;
    }
  }

  lemma LookupThrough(t: Trie, path: Key, b: Byte, key: Key)
    requires t.Branch? && b in t.kids && path + t.prefix + [b] <= key
    ensures |path| <= |key| && Lookup(t, key, |path|) == Lookup(t.kids[b], key, |path + t.prefix| + 1)
  {
    var at := path + t.prefix;
    PrefixStep(path, t.prefix, b, key);
    assert at <= at + [b] <= key;
    LookupBranch(t, path, key);
  }

  /** Every subtree holds some key. */
  lemma {:induction false} SomeKey(t: Trie, path: Key) returns (key: Key)
    requires Spelled(t, path)
    ensures path <= key && Lookup(t, key, |path|).Some?
    ensures t.Branch? ==> exists b :: b in t.kids && path + t.prefix + [b] <= key
  {
    match t
    case Tip(k, _) => key := k;
    case Branch(prefix, kids) =>
      var b :| b in kids;
      key := SomeKey(kids[b], path + prefix + [b]);
      LookupThrough(t, path, b, key);
      PrefixStep(path, prefix, b, key);
  }

  /** No stored key is a proper prefix of another one. */
  lemma {:induction false} StoredPrefixFree(t: Trie, path: Key, a: Key, b: Key)
    requires Spelled(t, path) && path <= a && a <= b
    requires Lookup(t, a, |path|).Some? && Lookup(t, b, |path|).Some?
    ensures a == b
  {
    if t.Branch? {
      LookupBranch(t, path, a);
      LookupBranch(t, path, b);
      var at := path + t.prefix;
      var c := a[|at|];
      assert b[|at|] == c;
      PrefixStep(path, t.prefix, c, a);
      StoredPrefixFree(t.kids[c], at + [c], a, b);
    }
  }

  lemma LookupUpdated(t: Trie, path: Key, b: Byte, child: Trie, k: Key)
    requires t.Branch? && path <= k
    ensures var at := path + t.prefix;
            Lookup(Branch(t.prefix, t.kids[b := child]), k, |path|) ==
            if at + [b] <= k then Lookup(child, k, |at| + 1) else Lookup(t, k, |path|)
  {
    LookupBranch(t, path, k);
    LookupBranch(Branch(t.prefix, t.kids[b := child]), path, k);
    PrefixStep(path, t.prefix, b, k);
    var at := path + t.prefix;
    if at + [b] <= k {
      assert at <= at + [b] <= k;
    } else if at <= k && |at| < |k| {
      assert k[..|at| + 1] == at + [k[|at|]];
    }
  }

  /** A stored key passes the node's prefix and takes one of its branches. */
  lemma StoredAt(t: Trie, path: Key, k: Key)
    requires Spelled(t, path) && t.Branch? && |path| <= |k| && Lookup(t, k, |path|).Some?
    ensures var at := path + t.prefix; at <= k && |at| < |k| && k[|at|] in t.kids
  {
    FoundIsBelow(t, path, k, |path|);
    LookupBranch(t, path, k);
  }

  lemma NextByte(a: Key, b: Byte, k: Key)
    requires a <= k && |a| < |k| && k[|a|] == b
    ensures a + [b] <= k
  {
    assert k[..|a| + 1] == a + [b];
  }

  lemma BelowByte(a: Key, b: Byte, k: Key)
    requires a + [b] <= k
    ensures a <= k && |a| < |k| && k[|a|] == b
  {
    assert k[|a|] == (a + [b])[|a|];
  }
}
