/** The entries of a radix tree in iteration order: ascending keys, each stored one exactly once. */
module ArtOrder {
  import opened Wrappers
  import opened Bytes
  import opened Lex
  import opened ArtTrie
  import opened ArtNode
  import opened ArtRefine

  type Entry = (Key, V)

  ghost function Entries(t: Trie): seq<Entry>
    decreases t, 257
  {
    if t.Tip? then [(t.key, t.value)] else EntriesFrom(t, 0)
  }

  ghost function EntriesFrom(t: Trie, from: nat): seq<Entry>
    requires t.Branch? && from <= 256
    decreases t, 256 - from
  {
    if from == 256 then []
    else if from in t.kids then Entries(t.kids[from]) + EntriesFrom(t, from + 1)
    else EntriesFrom(t, from + 1)
  }

  predicate AscendingKeys(es: seq<Entry>) { forall i, j :: 0 <= i < j < |es| ==> Less(es[i].0, es[j].0) }

  lemma {:induction false} LessAt(at: Key, a: Key, b: Key)
    requires at <= a && at <= b && |at| < |a| && |at| < |b| && a[|at|] < b[|at|]
    ensures Less(a, b)
  {
    if at != [] {
      LessAt(at[1..], a[1..], b[1..]);
    }
  }

  predicate AllBefore(s: seq<Entry>, t: seq<Entry>) {
    forall i, j :: 0 <= i < |s| && 0 <= j < |t| ==> Less(s[i].0, t[j].0)
  }

  lemma AscendingConcat(s: seq<Entry>, t: seq<Entry>)
    requires AscendingKeys(s) && AscendingKeys(t) && AllBefore(s, t)
    ensures AscendingKeys(s + t)
  {
  }

  /** The key hangs below `at` under a byte no smaller than `from`. */
  ghost predicate Below(at: Key, from: nat, key: Key) { at <= key && |at| < |key| && from <= key[|at|] }

  lemma BelowKid(at: Key, b: Byte, key: Key)
    requires at + [b] <= key
    ensures at <= key && |at| < |key| && key[|at|] == b
  {
    assert key[|at|] == (at + [b])[|at|];
  }

  lemma {:induction false} EntryBelow(t: Trie, path: Key, i: nat)
    requires Spelled(t, path) && i < |Entries(t)|
    ensures path <= Entries(t)[i].0
    decreases t, 257
  {
    if t.Branch? {
      EntryBelowFrom(t, path, 0, i);
    }
  }

  lemma {:induction false} EntryBelowFrom(t: Trie, path: Key, from: nat, i: nat)
    requires t.Branch? && Spelled(t, path) && from <= 256 && i < |EntriesFrom(t, from)|
    ensures Below(path + t.prefix, from, EntriesFrom(t, from)[i].0)
    ensures path <= EntriesFrom(t, from)[i].0
    decreases t, 256 - from
  {
    if from in t.kids && i < |Entries(t.kids[from])| {
      EntryBelow(t.kids[from], path + t.prefix + [from], i);
      BelowKid(path + t.prefix, from, EntriesFrom(t, from)[i].0);
    } else {
      EntryBelowFrom(t, path, from + 1, if from in t.kids then i - |Entries(t.kids[from])| else i);
    }
    assert path <= path + t.prefix;
  }

  lemma {:induction false} EntriesAscend(t: Trie, path: Key)
    requires Spelled(t, path)
    ensures AscendingKeys(Entries(t))
    decreases t, 257
  {
    if t.Branch? {
      EntriesAscendFrom(t, path, 0);
    }
  }

  lemma {:induction false} EntriesAscendFrom(t: Trie, path: Key, from: nat)
    requires t.Branch? && Spelled(t, path) && from <= 256
    ensures AscendingKeys(EntriesFrom(t, from))
    decreases t, 256 - from
  {
    if from < 256 {
      EntriesAscendFrom(t, path, from + 1);
      if from in t.kids {
        EntriesAscend(t.kids[from], path + t.prefix + [from]);
        KidBeforeRest(t, path, from);
        AscendingConcat(Entries(t.kids[from]), EntriesFrom(t, from + 1));
      }
    }
  }

  lemma KidBeforeRest(t: Trie, path: Key, b: Byte)
    requires t.Branch? && Spelled(t, path) && b in t.kids
    ensures AllBefore(Entries(t.kids[b]), EntriesFrom(t, b + 1))
  {
    var kid, rest := Entries(t.kids[b]), EntriesFrom(t, b + 1);
    forall i, j | 0 <= i < |kid| && 0 <= j < |rest| ensures Less(kid[i].0, rest[j].0) {
      EntryBelow(t.kids[b], path + t.prefix + [b], i);
      BelowKid(path + t.prefix, b, kid[i].0);
      EntryBelowFrom(t, path, b + 1, j);
      LessAt(path + t.prefix, kid[i].0, rest[j].0);
    }
  }

  /** Every listed entry is what the tree answers for its key. */
  lemma {:induction false} EntryIsStored(t: Trie, path: Key, i: nat)
    requires Spelled(t, path) && i < |Entries(t)|
    ensures var e := Entries(t)[i]; path <= e.0 && Lookup(t, e.0, |path|) == Some(e.1)
    decreases t, 257
  {
    if t.Branch? {
      EntryIsStoredFrom(t, path, 0, i);
    }
  }

  lemma {:induction false} EntryIsStoredFrom(t: Trie, path: Key, from: nat, i: nat)
    requires t.Branch? && Spelled(t, path) && from <= 256 && i < |EntriesFrom(t, from)|
    ensures var e := EntriesFrom(t, from)[i]; path <= e.0 && Lookup(t, e.0, |path|) == Some(e.1)
    decreases t, 256 - from
  {
    if from in t.kids && i < |Entries(t.kids[from])| {
      EntryIsStored(t.kids[from], path + t.prefix + [from], i);
      LookupThrough(t, path, from, EntriesFrom(t, from)[i].0);
      BelowKid(path + t.prefix, from, EntriesFrom(t, from)[i].0);
      assert path <= path + t.prefix;
    } else {
      EntryIsStoredFrom(t, path, from + 1, if from in t.kids then i - |Entries(t.kids[from])| else i);
    }
  }

  /** Every stored key is listed with its value. */
  lemma {:induction false} StoredIsEntry(t: Trie, path: Key, k: Key)
    requires Spelled(t, path) && path <= k && Lookup(t, k, |path|).Some?
    ensures (k, Lookup(t, k, |path|).value) in Entries(t)
    decreases t
  {
    if t.Branch? {
      StoredAt(t, path, k);
      var at := path + t.prefix;
      var b := k[|at|];
      NextByte(at, b, k);
      LookupThrough(t, path, b, k);
      StoredIsEntry(t.kids[b], at + [b], k);
      KidListed(t, 0, b, (k, Lookup(t, k, |path|).value));
    }
  }

  lemma {:induction false} KidListed(t: Trie, from: nat, b: Byte, e: Entry)
    requires t.Branch? && from <= b && b in t.kids && e in Entries(t.kids[b])
    ensures e in EntriesFrom(t, from)
    decreases b - from
  {
    if from < b {
      KidListed(t, from + 1, b, e);
    }
  }

  /** The entries of a tree are its stored pairs, in strictly ascending key order. */
  lemma EntriesExact(t: Trie)
    requires Spelled(t, [])
    ensures AscendingKeys(Entries(t))
    ensures forall k: Key, v: V :: (k, v) in Entries(t) <==> Lookup(t, k, 0) == Some(v)
  {
    EntriesAscend(t, []);
    forall k: Key, v: V ensures (k, v) in Entries(t) <==> Lookup(t, k, 0) == Some(v) {
      if (k, v) in Entries(t) {
        var i :| 0 <= i < |Entries(t)| && Entries(t)[i] == (k, v);
        EntryIsStored(t, [], i);
      }
      if Lookup(t, k, 0) == Some(v) {
        StoredIsEntry(t, [], k);
      }
    }
  }

  // ---------------------------------------------------------------- listed children

  ghost predicate AllSound(cs: seq<(Byte, Node)>) { forall i :: 0 <= i < |cs| ==> Sound(cs[i].1) }

  ghost function Listed(cs: seq<(Byte, Node)>): seq<Entry>
    requires AllSound(cs)
  {
    if cs == [] then [] else Entries(Abs(cs[0].1)) + Listed(cs[1..])
  }

  lemma {:induction false} ListedFrom(n: Node, from: nat)
    requires Sound(n) && !n.Leaf? && from <= 256
    ensures AllSound(ChildrenFrom(n, from)) && Listed(ChildrenFrom(n, from)) == EntriesFrom(Abs(n), from)
    decreases 256 - from
  {
    if from < 256 {
      ListedFrom(n, from + 1);
      KidAt(n, from);
      ChildrenStep(n, from);
      if ChildAt(n, from).Some? {
        var rest := ChildrenFrom(n, from + 1);
        assert ChildrenFrom(n, from)[1..] == rest;
      }
    }
  }

  /** Every interior node has a child, so that each descent ends in a leaf. */
  ghost predicate Peopled(t: Trie) {
    t.Branch? ==> t.kids != map[] && forall b :: b in t.kids ==> Peopled(t.kids[b])
  }

  lemma {:induction false} SpelledIsPeopled(t: Trie, path: Key)
    requires Spelled(t, path)
    ensures Peopled(t)
  {
    if t.Branch? {
      forall b | b in t.kids ensures Peopled(t.kids[b]) {
        SpelledIsPeopled(t.kids[b], path + t.prefix + [b]);
      }
    }
  }

  lemma ListedChild(n: Node, i: nat)
    requires Sound(n) && !n.Leaf? && Peopled(Abs(n)) && i < |Children(n)|
    ensures Sound(Children(n)[i].1) && Peopled(Abs(Children(n)[i].1)) && Children(n)[i].1 < n
  {
    ListedIsChild(n, 0, i);
    KidAt(n, Children(n)[i].0);
  }

  lemma FirstListed(n: Node)
    requires Sound(n) && !n.Leaf? && Peopled(Abs(n))
    ensures |Children(n)| > 0 && AllSound(Children(n)) && AllSound(Children(n)[1..])
    ensures Entries(Abs(n)) == Entries(Abs(Children(n)[0].1)) + Listed(Children(n)[1..])
  {
    KidCount(n);
    ListedFrom(n, 0);
  }
}
