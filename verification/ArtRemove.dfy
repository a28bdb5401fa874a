/** Removal from the trie, and exactly when the collapse it performs loses keys. */
module ArtRemove {
  import opened Wrappers
  import opened Bytes
  import opened ArtTrie

  ghost function OnlyKid(kids: map<Byte, Trie>): Trie
    requires |kids| == 1
  {
    assert exists b :: b in kids by {
      assert kids.Keys != {};
    }
    var b :| b in kids;
    kids[b]
  }

  ghost function WithoutChild(kids: map<Byte, Trie>, b: Byte, child: Option<Trie>): map<Byte, Trie> {
    if child.Some? then kids[b := child.value] else kids - {b}
  }

  /** A node left with a single child is replaced by that child. */
  ghost function Remove(t: Trie, key: Key, depth: nat): Option<Trie>
    requires depth <= |key|
  {
    match t
    case Tip(k, _) => if k == key then None else Some(t)
    case Branch(prefix, kids) =>
      var d := depth + |prefix|;
      if d >= |key| || key[depth..d] != prefix || key[d] !in kids then Some(t)
      else
        var left := WithoutChild(kids, key[d], Remove(kids[key[d]], key, d + 1));
        if |left| == 1 && Lookup(kids[key[d]], key, d + 1).Some? then Some(OnlyKid(left))
        else Some(Branch(prefix, left))
  }

  /** Every interior node branches. */
  ghost predicate Dense(t: Trie) {
    t.Branch? ==> |t.kids| >= 2 && forall b :: b in t.kids ==> Dense(t.kids[b])
  }

  /** Removing `key` leaves its parent with one child, and that child is an interior node. */
  ghost predicate InteriorSurvivor(t: Trie, key: Key, depth: nat)
    requires depth <= |key|
  {
    t.Branch? &&
    var d := depth + |t.prefix|;
    && d < |key| && key[depth..d] == t.prefix && key[d] in t.kids
    && var child := t.kids[key[d]];
       if child.Tip? then child.key == key && |t.kids| == 2 && OnlyKid(t.kids - {key[d]}).Branch?
       else InteriorSurvivor(child, key, d + 1)
  }

  /** `t` without `key`, every other key answered as before. */
  ghost predicate Without(t: Trie, r: Option<Trie>, key: Key, path: Key, k: Key)
    requires path <= key && path <= k
  {
    LookupIn(r, k, |path|) == if k == key then None else Lookup(t, k, |path|)
  }

  lemma OnlyKidIs(kids: map<Byte, Trie>, b: Byte)
    requires |kids| == 1 && b in kids
    ensures OnlyKid(kids) == kids[b] && kids.Keys == {b}
  {
    assert |kids.Keys - {b}| == 0;
    assert kids.Keys == {b} + (kids.Keys - {b});
  }

  lemma SameKid(kids: map<Byte, Trie>, b: Byte)
    requires b in kids
    ensures WithoutChild(kids, b, Some(kids[b])) == kids
  {
  }

  /** The descent for `key` goes on below `t`, at byte `d`. */
  ghost predicate GoesOn(t: Trie, key: Key, depth: nat, d: nat) {
    t.Branch? && d == depth + |t.prefix| && d < |key| && key[depth..d] == t.prefix && key[d] in t.kids
  }

  lemma {:induction false} AbsentIsKept(t: Trie, key: Key, depth: nat)
    requires depth <= |key| && Dense(t) && Lookup(t, key, depth).None?
    ensures Remove(t, key, depth) == Some(t)
  {
    var d := depth + if t.Branch? then |t.prefix| else 0;
    if GoesOn(t, key, depth, d) {
      Below(t, key, depth, d);
      AbsentIsKept(t.kids[key[d]], key, d + 1);
      AbsentBelow(t, key, depth, d);
    } else {
      StopsHere(t, key, depth, d);
    }
  }

  lemma Below(t: Trie, key: Key, depth: nat, d: nat)
    requires GoesOn(t, key, depth, d)
    ensures Lookup(t, key, depth) == Lookup(t.kids[key[d]], key, d + 1)
  {
  }

  lemma StopsHere(t: Trie, key: Key, depth: nat, d: nat)
    requires depth <= |key| && (t.Branch? ==> d == depth + |t.prefix| && !GoesOn(t, key, depth, d))
    requires Lookup(t, key, depth).None?
    ensures Remove(t, key, depth) == Some(t)
  {
  }

  lemma AbsentBelow(t: Trie, key: Key, depth: nat, d: nat)
    requires GoesOn(t, key, depth, d)
    requires Lookup(t.kids[key[d]], key, d + 1).None? && Remove(t.kids[key[d]], key, d + 1) == Some(t.kids[key[d]])
    ensures Remove(t, key, depth) == Some(t)
  {
    SameKid(t.kids, key[d]);
  }

  /** A removal that does not leave an interior survivor takes the key out and nothing else. */
  lemma {:induction false} RemoveEffect(t: Trie, path: Key, key: Key, k: Key)
    requires Spelled(t, path) && Dense(t) && path <= key && path <= k
    requires !InteriorSurvivor(t, key, |path|)
    ensures var r := Remove(t, key, |path|);
            (r.Some? ==> Spelled(r.value, path) && Dense(r.value)) && Without(t, r, key, path, k)
    decreases t
  {
    if Lookup(t, key, |path|).None? {
      AbsentIsKept(t, key, |path|);
    } else if t.Branch? {
      ThroughLookup(t, path, key);
      var b := key[|path + t.prefix|];
      var below := path + t.prefix + [b];
      LookupThrough(t, path, b, key);
      if t.kids[b].Tip? {
        TipRemoved(t, path, key, b, k);
      } else {
        RemoveEffect(t.kids[b], below, key, if below <= k then k else key);
        RemoveThrough(t, path, key, b);
        var r := Remove(t.kids[b], key, |below|);
        KidReplaced(t, path, key, b, r.value, k);
      }
    }
  }

  /** `key` goes on below the child that byte `b` of it names. */
  ghost predicate Through(t: Trie, path: Key, key: Key, b: Byte) {
    && t.Branch? && b in t.kids && path + t.prefix + [b] <= key
    && |path + t.prefix| < |key| && key[|path + t.prefix|] == b && key[|path|..|path + t.prefix|] == t.prefix
  }

  lemma ThroughLookup(t: Trie, path: Key, key: Key)
    requires Spelled(t, path) && t.Branch? && path <= key && Lookup(t, key, |path|).Some?
    ensures |path + t.prefix| < |key| && Through(t, path, key, key[|path + t.prefix|])
  {
    StoredAt(t, path, key);
    NextByte(path + t.prefix, key[|path + t.prefix|], key);
    PrefixStep(path, t.prefix, key[|path + t.prefix|], key);
  }

  lemma TipRemoved(t: Trie, path: Key, key: Key, b: Byte, k: Key)
    requires Spelled(t, path) && Dense(t) && path <= key && path <= k
    requires Through(t, path, key, b) && t.kids[b].Tip? && t.kids[b].key == key
    requires !InteriorSurvivor(t, key, |path|)
    ensures var r := Remove(t, key, |path|);
            r.Some? && Spelled(r.value, path) && Dense(r.value) && Without(t, r, key, path, k)
  {
    var left := t.kids - {b};
    assert left.Keys == t.kids.Keys - {b};
    assert Remove(t.kids[b], key, |path + t.prefix| + 1) == None;
    assert Remove(t, key, |path|) == Some(if |left| == 1 then OnlyKid(left) else Branch(t.prefix, left));
    LeftoverEffect(t, path, b, key, k);
  }

  /** What stays of a branch that loses the leaf under `b`. */
  lemma LeftoverEffect(t: Trie, path: Key, b: Byte, key: Key, k: Key)
    requires t.Branch? && Spelled(t, path) && Dense(t) && path <= key && path <= k
    requires b in t.kids && t.kids[b].Tip? && t.kids[b].key == key
    requires |t.kids| == 2 ==> |t.kids - {b}| == 1 && OnlyKid(t.kids - {b}).Tip?
    ensures var left := t.kids - {b};
            var r := if |left| == 1 then OnlyKid(left) else Branch(t.prefix, left);
            Spelled(r, path) && Dense(r) && Without(t, Some(r), key, path, k)
  {
    var left := t.kids - {b};
    assert left.Keys == t.kids.Keys - {b};
    if |left| == 1 {
      var c :| c in left.Keys;
      OnlyKidIs(left, c);
      assert t.kids.Keys == {b} + left.Keys == {b, c};
      TipLeft(t, path, b, c, k);
    } else {
      KidDropped(t, path, b, k);
    }
  }

  lemma TipLeft(t: Trie, path: Key, b: Byte, c: Byte, k: Key)
    requires t.Branch? && Spelled(t, path) && path <= k && b in t.kids && c in t.kids && t.kids.Keys == {b, c} && b != c
    requires t.kids[b].Tip? && t.kids[c].Tip?
    ensures path <= t.kids[c].key
    ensures Lookup(t.kids[c], k, |path|) == if k == t.kids[b].key then None else Lookup(t, k, |path|)
  {
    TipsBelow(t, path, b, k);
    TipsBelow(t, path, c, k);
    TipsBelow(t, path, c, t.kids[c].key);
    TipsBelow(t, path, b, t.kids[b].key);
    if Lookup(t, k, |path|).Some? {
      StoredAt(t, path, k);
    }
  }

  lemma TipsBelow(t: Trie, path: Key, b: Byte, k: Key)
    requires t.Branch? && Spelled(t, path) && b in t.kids && t.kids[b].Tip? && path <= k
    ensures var at := path + t.prefix;
            && path <= t.kids[b].key && |at| < |t.kids[b].key| && t.kids[b].key[|at|] == b
            && (|at| < |k| && k[|at|] == b ==>
                  (Lookup(t, k, |path|) == if k == t.kids[b].key then Some(t.kids[b].value) else None))
  {
    var at, key := path + t.prefix, t.kids[b].key;
    assert path <= at <= at + [b] <= key;
    assert key[|at|] == (at + [b])[|at|];
    LookupBranch(t, path, k);
  }

  lemma KidDropped(t: Trie, path: Key, b: Byte, k: Key)
    requires t.Branch? && Spelled(t, path) && path <= k && b in t.kids && t.kids[b].Tip?
    ensures Lookup(Branch(t.prefix, t.kids - {b}), k, |path|) ==
            if k == t.kids[b].key then None else Lookup(t, k, |path|)
  {
    TipsBelow(t, path, b, k);
    TipsBelow(t, path, b, t.kids[b].key);
    LookupBranch(t, path, k);
    LookupBranch(Branch(t.prefix, t.kids - {b}), path, k);
  }

  lemma RemoveThrough(t: Trie, path: Key, key: Key, b: Byte)
    requires Dense(t) && Through(t, path, key, b) && path <= key
    ensures var r := Remove(t.kids[b], key, |path + t.prefix| + 1);
            r.Some? ==> Remove(t, key, |path|) == Some(Branch(t.prefix, t.kids[b := r.value]))
  {
    var r := Remove(t.kids[b], key, |path + t.prefix| + 1);
    if r.Some? {
      assert t.kids[b := r.value].Keys == t.kids.Keys;
    }
  }

  lemma KidReplaced(t: Trie, path: Key, key: Key, b: Byte, child: Trie, k: Key)
    requires Spelled(t, path) && Dense(t) && path <= key && path <= k && Through(t, path, key, b)
    requires Spelled(child, path + t.prefix + [b]) && Dense(child)
    requires path + t.prefix + [b] <= k ==> Without(t.kids[b], Some(child), key, path + t.prefix + [b], k)
    ensures var r := Branch(t.prefix, t.kids[b := child]);
            Spelled(r, path) && Dense(r) && Without(t, Some(r), key, path, k)
  {
    assert t.kids[b := child].Keys == t.kids.Keys;
    LookupUpdated(t, path, b, child, k);
    if path + t.prefix + [b] <= k {
      LookupThrough(t, path, b, k);
    }
  }

  /** A subtree moved up to a shorter path loses keys: its children are told apart by a byte the
      descent no longer reaches. */
  lemma MovedUpLoses(s: Trie, path: Key, depth: nat) returns (k: Key)
    requires s.Branch? && Spelled(s, path) && |s.kids| >= 2 && depth < |path|
    ensures path <= k && Lookup(s, k, |path|).Some? && Lookup(s, k, depth).None?
  {
    var at := path + s.prefix;
    var c1 :| c1 in s.kids.Keys;
    assert s.kids.Keys != {c1} by {
      assert |{c1}| == 1;
    }
    var c2 :| c2 in s.kids.Keys && c2 != c1;
    var k1 := KeyThrough(s, path, c1);
    var k2 := KeyThrough(s, path, c2);
    var p := depth + |s.prefix|;
    assert k1[p] == at[p] == k2[p];
    if at[p] != c1 {
      k := k1;
      NotFoundElsewhere(s, path, k1, c1, depth);
    } else {
      k := k2;
      NotFoundElsewhere(s, path, k2, c2, depth);
    }
  }

  lemma KeyThrough(t: Trie, path: Key, b: Byte) returns (k: Key)
    requires t.Branch? && Spelled(t, path) && b in t.kids
    ensures path <= k && Lookup(t, k, |path|).Some?
    ensures path + t.prefix <= k && |path + t.prefix| < |k| && k[|path + t.prefix|] == b
  {
    var at := path + t.prefix;
    k := SomeKey(t.kids[b], at + [b]);
    assert path <= at <= at + [b] <= k;
    assert k[|at|] == (at + [b])[|at|];
    LookupThrough(t, path, b, k);
  }

  lemma NotFoundElsewhere(t: Trie, path: Key, k: Key, b: Byte, depth: nat)
    requires t.Branch? && Spelled(t, path) && depth < |path|
    requires path + t.prefix <= k && |path + t.prefix| < |k| && k[|path + t.prefix|] == b
    requires k[depth + |t.prefix|] != b
    ensures Lookup(t, k, depth).None?
  {
    var at, d := path + t.prefix, depth + |t.prefix|;
    if k[d] in t.kids && Lookup(t.kids[k[d]], k, d + 1).Some? {
      FoundTakes(t.kids[k[d]], at, k[d], k, d + 1);
    }
  }

  lemma FoundTakes(t: Trie, at: Key, b: Byte, k: Key, depth: nat)
    requires Spelled(t, at + [b]) && depth <= |k| && Lookup(t, k, depth).Some?
    ensures |at| < |k| && k[|at|] == b
  {
    FoundIsBelow(t, at + [b], k, depth);
    assert k[|at|] == (at + [b])[|at|];
  }

  /** Whenever an interior survivor is left, some other stored key can no longer be found. */
  lemma {:induction false} RemoveLoses(t: Trie, path: Key, key: Key) returns (k: Key)
    requires Spelled(t, path) && Dense(t) && path <= key && InteriorSurvivor(t, key, |path|)
    ensures path <= k && k != key && Lookup(t, k, |path|).Some?
    ensures Remove(t, key, |path|).Some? && LookupIn(Remove(t, key, |path|), k, |path|).None?
    decreases t
  {
    var b := SurvivorBelow(t, path, key);
    if t.kids[b].Tip? {
      k := SurvivorLoses(t, path, key, b);
    } else {
      k := RemoveLoses(t.kids[b], path + t.prefix + [b], key);
      LossShows(t, path, key, b, k);
    }
  }

  /** The survivor is left right here or further down the way of the key. */
  lemma SurvivorBelow(t: Trie, path: Key, key: Key) returns (b: Byte)
    requires Spelled(t, path) && Dense(t) && path <= key && InteriorSurvivor(t, key, |path|)
    ensures Through(t, path, key, b) && Spelled(t.kids[b], path + t.prefix + [b]) && Dense(t.kids[b])
    ensures if t.kids[b].Tip? then t.kids[b].key == key && |t.kids| == 2 && OnlyKid(t.kids - {b}).Branch?
            else InteriorSurvivor(t.kids[b], key, |path + t.prefix + [b]|)
  {
    b := key[|path + t.prefix|];
    PrefixStep(path, t.prefix, b, key);
  }

  /** A key lost below a child is lost above it. */
  lemma LossShows(t: Trie, path: Key, key: Key, b: Byte, k: Key)
    requires Dense(t) && Through(t, path, key, b) && path <= key && path + t.prefix + [b] <= k
    requires Lookup(t.kids[b], k, |path + t.prefix| + 1).Some?
    requires var r := Remove(t.kids[b], key, |path + t.prefix| + 1);
             r.Some? && Lookup(r.value, k, |path + t.prefix| + 1).None?
    ensures path <= k && Lookup(t, k, |path|).Some?
    ensures Remove(t, key, |path|).Some? && LookupIn(Remove(t, key, |path|), k, |path|).None?
  {
    RemoveThrough(t, path, key, b);
    LookupThrough(t, path, b, k);
    assert path <= path + t.prefix <= path + t.prefix + [b] <= k;
    LookupUpdated(t, path, b, Remove(t.kids[b], key, |path + t.prefix| + 1).value, k);
  }

  lemma SurvivorLoses(t: Trie, path: Key, key: Key, b: Byte) returns (k: Key)
    requires Spelled(t, path) && Dense(t) && path <= key && Through(t, path, key, b)
    requires t.kids[b].Tip? && t.kids[b].key == key && |t.kids| == 2 && OnlyKid(t.kids - {b}).Branch?
    ensures path <= k && k != key && Lookup(t, k, |path|).Some?
    ensures Remove(t, key, |path|).Some? && LookupIn(Remove(t, key, |path|), k, |path|).None?
  {
    var at, left := path + t.prefix, t.kids - {b};
    assert left.Keys == t.kids.Keys - {b};
    var c :| c in left.Keys;
    OnlyKidIs(left, c);
    assert Remove(t.kids[b], key, |at| + 1) == None;
    k := MovedUpLoses(t.kids[c], at + [c], |path|);
    LookupThrough(t, path, c, k);
    assert k[|at|] == (at + [c])[|at|];
    assert path <= at <= at + [c] <= k;
  }

  /** Removal keeps every other key if and only if it leaves no interior survivor. */
  lemma RemoveExact(t: Trie, path: Key, key: Key)
    requires Spelled(t, path) && Dense(t) && path <= key
    ensures !InteriorSurvivor(t, key, |path|) <==>
            forall k :: path <= k ==> Without(t, Remove(t, key, |path|), key, path, k)
  {
    if InteriorSurvivor(t, key, |path|) {
      var k := RemoveLoses(t, path, key);
      assert !Without(t, Remove(t, key, |path|), key, path, k);
    } else {
      forall k | path <= k ensures Without(t, Remove(t, key, |path|), key, path, k) {
        RemoveEffect(t, path, key, k);
      }
    }
  }

  // ---------------------------------------------------------------- any tree, branching or not

  /** A leaf of `t`, wherever it hangs. */
  ghost predicate HasTip(t: Trie, k: Key, v: V) {
    match t
    case Tip(key, value) => k == key && v == value
    case Branch(_, kids) => exists b :: b in kids && HasTip(kids[b], k, v)
  }

  ghost predicate HasTipIn(t: Option<Trie>, k: Key, v: V) { t.Some? && HasTip(t.value, k, v) }

  lemma {:induction false} TipFound(t: Trie, path: Key, k: Key, v: V)
    requires Spelled(t, path) && HasTip(t, k, v)
    ensures path <= k && Lookup(t, k, |path|) == Some(v)
    decreases t
  {
    if t.Branch? {
      var b :| b in t.kids && HasTip(t.kids[b], k, v);
      TipFound(t.kids[b], path + t.prefix + [b], k, v);
      assert path <= path + t.prefix + [b] <= k;
      LookupThrough(t, path, b, k);
    }
  }

  lemma {:induction false} FoundTip(t: Trie, k: Key, depth: nat)
    requires depth <= |k| && Lookup(t, k, depth).Some?
    ensures HasTip(t, k, Lookup(t, k, depth).value)
    decreases t
  {
    if t.Branch? {
      var d := depth + |t.prefix|;
      FoundTip(t.kids[k[d]], k, d + 1);
    }
  }

  /** In any tree, with one-child nodes or not, removal takes out the leaf of the key and no other:
      what it loses is the way to a leaf, never the leaf. */
  lemma {:induction false} RemoveKeepsTips(t: Trie, path: Key, key: Key, k: Key, v: V)
    requires Spelled(t, path) && path <= key
    ensures HasTipIn(Remove(t, key, |path|), k, v) <==> HasTip(t, k, v) && k != key
    decreases t
  {
    if t.Branch? {
      var d := |path| + |t.prefix|;
      if GoesOn(t, key, |path|, d) {
        KeyGoesThrough(t, path, key, d);
        RemoveKeepsTips(t.kids[key[d]], path + t.prefix + [key[d]], key, k, v);
        TipsThrough(t, path, key, key[d], k, v);
      } else {
        TipsElsewhere(t, path, key, k, v, d);
      }
    }
  }

  lemma KeyGoesThrough(t: Trie, path: Key, key: Key, d: nat)
    requires Spelled(t, path) && path <= key && GoesOn(t, key, |path|, d)
    ensures Through(t, path, key, key[d]) && Spelled(t.kids[key[d]], path + t.prefix + [key[d]])
  {
    PrefixStep(path, t.prefix, key[d], key);
  }

  /** If the descent misses the node, no leaf of the key is below it. */
  lemma TipsElsewhere(t: Trie, path: Key, key: Key, k: Key, v: V, d: nat)
    requires Spelled(t, path) && t.Branch? && path <= key && d == |path| + |t.prefix| && !GoesOn(t, key, |path|, d)
    ensures HasTipIn(Remove(t, key, |path|), k, v) <==> HasTip(t, k, v) && k != key
  {
    StopsHere(t, key, |path|, d);
    if HasTip(t, k, v) {
      TipFound(t, path, k, v);
    }
  }

  lemma TipsThrough(t: Trie, path: Key, key: Key, b: Byte, k: Key, v: V)
    requires Spelled(t, path) && path <= key && Through(t, path, key, b)
    requires HasTipIn(Remove(t.kids[b], key, |path + t.prefix| + 1), k, v) <==> HasTip(t.kids[b], k, v) && k != key
    ensures HasTipIn(Remove(t, key, |path|), k, v) <==> HasTip(t, k, v) && k != key
  {
    var child := Remove(t.kids[b], key, |path + t.prefix| + 1);
    var left := WithoutChild(t.kids, b, child);
    TipsLeft(t, path, key, b, k, v, child, left);
    OnlyKidTips(t.prefix, left, k, v);
    RemoveIs(t, path, key, b, child, left);
  }

  lemma RemoveIs(t: Trie, path: Key, key: Key, b: Byte, child: Option<Trie>, left: map<Byte, Trie>)
    requires path <= key && Through(t, path, key, b)
    requires child == Remove(t.kids[b], key, |path + t.prefix| + 1) && left == WithoutChild(t.kids, b, child)
    ensures Remove(t, key, |path|) ==
            Some(if |left| == 1 && Lookup(t.kids[b], key, |path + t.prefix| + 1).Some? then OnlyKid(left) else Branch(t.prefix, left))
  {
  }

  lemma TipsLeft(t: Trie, path: Key, key: Key, b: Byte, k: Key, v: V, child: Option<Trie>, left: map<Byte, Trie>)
    requires Spelled(t, path) && Through(t, path, key, b) && left == WithoutChild(t.kids, b, child)
    requires HasTipIn(child, k, v) <==> HasTip(t.kids[b], k, v) && k != key
    ensures HasTip(Branch(t.prefix, left), k, v) <==> HasTip(t, k, v) && k != key
  {
    if HasTip(Branch(t.prefix, left), k, v) {
      var c :| c in left && HasTip(left[c], k, v);
      if c != b {
        assert left[c] == t.kids[c];
        OtherKid(t, path, key, b, c, k, v);
      }
    }
    if HasTip(t, k, v) && k != key {
      var c :| c in t.kids && HasTip(t.kids[c], k, v);
      assert c in left && HasTip(left[c], k, v);
    }
  }

  lemma OtherKid(t: Trie, path: Key, key: Key, b: Byte, c: Byte, k: Key, v: V)
    requires Spelled(t, path) && Through(t, path, key, b) && c in t.kids && c != b && HasTip(t.kids[c], k, v)
    ensures k != key
  {
    var at := path + t.prefix;
    TipFound(t.kids[c], at + [c], k, v);
    BelowByte(at, c, k);
  }

  lemma OnlyKidTips(prefix: Key, kids: map<Byte, Trie>, k: Key, v: V)
    ensures |kids| == 1 ==> (HasTip(OnlyKid(kids), k, v) <==> HasTip(Branch(prefix, kids), k, v))
  {
    if |kids| == 1 {
      var b :| b in kids.Keys;
      OnlyKidIs(kids, b);
    }
  }

  /** Nothing is invented: what a lookup finds after a removal it found before, and not the key. */
  lemma RemoveInventsNothing(t: Trie, path: Key, key: Key, k: Key)
    requires Spelled(t, path) && path <= key && path <= k
    requires LookupIn(Remove(t, key, |path|), k, |path|).Some?
    ensures k != key && Lookup(t, k, |path|) == LookupIn(Remove(t, key, |path|), k, |path|)
  {
    var v := LookupIn(Remove(t, key, |path|), k, |path|).value;
    FoundTip(Remove(t, key, |path|).value, k, |path|);
    RemoveKeepsTips(t, path, key, k, v);
    TipFound(t, path, k, v);
  }
}
