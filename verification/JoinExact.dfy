/** The joins by positions: which pairs of rows come out, how often and in which order. */
module JoinExact {
  import opened JoinModel
  import opened JoinProofs
  import Morsel

  // ---------------------------------------------------------------- nested loops

  /** What `make` makes of the pairs that `keep` keeps, of an outer and an inner element. */
  function Inner<A, B, T>(a: A, inner: seq<B>, keep: (A, B) -> bool, make: (A, B) -> T): seq<T> {
    if inner == [] then []
    else if keep(a, inner[0]) then [make(a, inner[0])] + Inner(a, inner[1..], keep, make)
    else Inner(a, inner[1..], keep, make)
  }

  function Nested<A, B, T>(outer: seq<A>, inner: seq<B>, keep: (A, B) -> bool, make: (A, B) -> T): seq<T> {
    if outer == [] then [] else Inner(outer[0], inner, keep, make) + Nested(outer[1..], inner, keep, make)
  }

  /** By the outer element first, then by the inner one. */
  predicate Earlier(a: (nat, nat), b: (nat, nat)) { a.0 < b.0 || (a.0 == b.0 && a.1 < b.1) }

  ghost predicate Ordered(at: seq<(nat, nat)>) {
    forall k, m :: 0 <= k < m < |at| ==> Earlier(at[k], at[m])
  }

  /** The positions of the pairs with an outer element from `i` on that are kept, and no others. */
  ghost predicate Positions<A, B>(at: seq<(nat, nat)>, outer: seq<A>, inner: seq<B>, i: nat, keep: (A, B) -> bool) {
    && (forall k :: 0 <= k < |at| ==> i <= at[k].0 < |outer| && at[k].1 < |inner|)
    && (forall a, b :: i <= a < |outer| && 0 <= b < |inner| ==> ((a, b) in at <==> keep(outer[a], inner[b])))
  }

  ghost predicate RowPositions<A, B>(js: seq<nat>, a: A, inner: seq<B>, j: nat, keep: (A, B) -> bool) {
    && (forall k :: 0 <= k < |js| ==> j <= js[k] < |inner|)
    && (forall k, m :: 0 <= k < m < |js| ==> js[k] < js[m])
    && (forall b :: j <= b < |inner| ==> (b in js <==> keep(a, inner[b])))
  }

  /** The results are those of the pairs at the positions. */
  ghost predicate RowsAt<A, B, T>(rows: seq<T>, at: seq<(nat, nat)>, outer: seq<A>, inner: seq<B>, make: (A, B) -> T) {
    && |rows| == |at|
    && (forall k :: 0 <= k < |at| ==>
         at[k].0 < |outer| && at[k].1 < |inner| && rows[k] == make(outer[at[k].0], inner[at[k].1]))
  }

  ghost predicate RowAt<A, B, T>(rows: seq<T>, js: seq<nat>, a: A, inner: seq<B>, make: (A, B) -> T) {
    |rows| == |js| && (forall k :: 0 <= k < |js| ==> js[k] < |inner| && rows[k] == make(a, inner[js[k]]))
  }

  lemma {:induction false} InnerExact<A, B, T>(a: A, inner: seq<B>, j: nat, keep: (A, B) -> bool, make: (A, B) -> T)
    returns (js: seq<nat>)
    requires j <= |inner|
    ensures RowPositions(js, a, inner, j, keep) && RowAt(Inner(a, inner[j..], keep, make), js, a, inner, make)
    decreases |inner| - j
  {
    if j == |inner| {
      js := [];
    } else {
      assert inner[j..][0] == inner[j] && inner[j..][1..] == inner[j + 1..];
      var rest := InnerExact(a, inner, j + 1, keep, make);
      js := if keep(a, inner[j]) then [j] + rest else rest;
    }
  }

  /** Of every pair that is kept, and of no other, nested loops give one result, ordered by the outer
      element and then by the inner one. */
  lemma NestedExact<A, B, T>(outer: seq<A>, inner: seq<B>, keep: (A, B) -> bool, make: (A, B) -> T)
    returns (at: seq<(nat, nat)>)
    ensures Ordered(at) && Positions(at, outer, inner, 0, keep)
    ensures RowsAt(Nested(outer, inner, keep, make), at, outer, inner, make)
  {
    at := NestedFrom(outer, inner, 0, keep, make);
    assert outer[0..] == outer;
  }

  lemma {:induction false} NestedFrom<A, B, T>(outer: seq<A>, inner: seq<B>, i: nat, keep: (A, B) -> bool, make: (A, B) -> T)
    returns (at: seq<(nat, nat)>)
    requires i <= |outer|
    ensures Ordered(at) && Positions(at, outer, inner, i, keep)
    ensures RowsAt(Nested(outer[i..], inner, keep, make), at, outer, inner, make)
    decreases |outer| - i
  {
    if i == |outer| {
      at := [];
    } else {
      var js := InnerExact(outer[i], inner, 0, keep, make);
      var rest := NestedFrom(outer, inner, i + 1, keep, make);
      at := seq(|js|, k requires 0 <= k < |js| => (i, js[k])) + rest;
      assert inner[0..] == inner;
      assert outer[i..][0] == outer[i] && outer[i..][1..] == outer[i + 1..];
      RowsPrepended(Inner(outer[i], inner, keep, make), Nested(outer[i + 1..], inner, keep, make), at, js, rest, outer,
                    inner, i, make);
      Prepended(at, js, rest, outer, inner, i, keep);
    }
  }

  lemma RowsPrepended<A, B, T>(rows: seq<T>, more: seq<T>, at: seq<(nat, nat)>, js: seq<nat>, rest: seq<(nat, nat)>,
                               outer: seq<A>, inner: seq<B>, i: nat, make: (A, B) -> T)
    requires i < |outer| && RowAt(rows, js, outer[i], inner, make) && RowsAt(more, rest, outer, inner, make)
    requires at == seq(|js|, k requires 0 <= k < |js| => (i, js[k])) + rest
    ensures RowsAt(rows + more, at, outer, inner, make)
  {
  }

  lemma Prepended<A, B>(at: seq<(nat, nat)>, js: seq<nat>, rest: seq<(nat, nat)>, outer: seq<A>, inner: seq<B>,
                        i: nat, keep: (A, B) -> bool)
    requires i < |outer| && |at| == |js| + |rest|
    requires forall k :: 0 <= k < |js| ==> at[k] == (i, js[k])
    requires forall k :: 0 <= k < |rest| ==> at[|js| + k] == rest[k]
    requires RowPositions(js, outer[i], inner, 0, keep) && Ordered(rest)
    requires Positions(rest, outer, inner, i + 1, keep)
    ensures Ordered(at) && Positions(at, outer, inner, i, keep)
  {
    assert at[|js|..] == rest;
    forall k | |js| <= k < |at| ensures at[k] == rest[k - |js|] {
      assert at[|js| + (k - |js|)] == rest[k - |js|];
    }
    forall a, b | i <= a < |outer| && 0 <= b < |inner|
      ensures (a, b) in at <==> keep(outer[a], inner[b])
    {
      if a == i {
        if k :| 0 <= k < |js| && js[k] == b {
          assert at[k] == (a, b);
        }
      } else if k :| 0 <= k < |rest| && rest[k] == (a, b) {
        assert at[|js| + k] == (a, b);
      }
    }
  }

  // ---------------------------------------------------------------- joins of rows

  /** Both columns exist and hold the same value, which is not NULL. */
  predicate Joins(l: Row, r: Row, lc: nat, rc: nat) {
    lc < |l| && rc < |r| && l[lc] == r[rc] && l[lc] != Null
  }

  function SameKey(lc: nat, rc: nat): (Row, Row) -> bool { (l: Row, r: Row) => Joins(l, r, lc, rc) }

  function SideBySide(l: Row, r: Row): Row { l + r }

  /** The same with the right row given first. */
  function SameKeyByRight(lc: nat, rc: nat): (Row, Row) -> bool { (r: Row, l: Row) => Joins(l, r, lc, rc) }

  function SideBySideByRight(r: Row, l: Row): Row { l + r }

  lemma MatchesJoins(l: Row, r: Row, lc: nat, rc: nat)
    ensures Matches(l, r, lc, rc) <==> Joins(l, r, lc, rc)
  {
    if lc < |l| && rc < |r| {
      CmpIsEq(l[lc], r[rc]);
    }
  }

  lemma {:induction false} RowMatchesIsInner(l: Row, right: seq<Row>, lc: nat, rc: nat)
    ensures RowMatches(l, right, lc, rc) == Inner(l, right, SameKey(lc, rc), SideBySide)
  {
    if right != [] {
      MatchesJoins(l, right[0], lc, rc);
      RowMatchesIsInner(l, right[1..], lc, rc);
    }
  }

  /** The equality join pairs the rows with equal keys, the left row in front: by the left row first and
      then by the right one, each pair once. */
  lemma {:induction false} EquiJoinIsNested(left: seq<Row>, right: seq<Row>, lc: nat, rc: nat)
    ensures EquiJoin(left, right, lc, rc) == Nested(left, right, SameKey(lc, rc), SideBySide)
  {
    if left != [] {
      RowMatchesIsInner(left[0], right, lc, rc);
      EquiJoinIsNested(left[1..], right, lc, rc);
    }
  }

  lemma {:induction false} ColMatchesIsInner(left: seq<Row>, r: Row, lc: nat, rc: nat)
    ensures ColMatches(left, r, lc, rc) == Inner(r, left, SameKeyByRight(lc, rc), SideBySideByRight)
  {
    if left != [] {
      MatchesJoins(left[0], r, lc, rc);
      ColMatchesIsInner(left[1..], r, lc, rc);
    }
  }

  /** With the right side outside, the same pairs come by the right row first. */
  lemma {:induction false} ByRightIsNested(left: seq<Row>, right: seq<Row>, lc: nat, rc: nat)
    ensures EquiJoinByRight(left, right, lc, rc) == Nested(right, left, SameKeyByRight(lc, rc), SideBySideByRight)
    decreases |right|
  {
    if right != [] {
      ColMatchesIsInner(left, right[0], lc, rc);
      ByRightIsNested(left, right[1..], lc, rc);
    }
  }

  // ---------------------------------------------------------------- the partitioned join

  function SameFirst(p: Morsel.Tuple, b: Morsel.Tuple): bool { p.0 == b.0 }

  function Seconds(p: Morsel.Tuple, b: Morsel.Tuple): Morsel.Tuple { (b.1, p.1) }

  lemma {:induction false} InnerConcat<A, B, T>(a: A, x: seq<B>, y: seq<B>, keep: (A, B) -> bool, make: (A, B) -> T)
    ensures Inner(a, x + y, keep, make) == Inner(a, x, keep, make) + Inner(a, y, keep, make)
  {
    if x == [] {
      assert x + y == y;
    } else {
      assert (x + y)[1..] == x[1..] + y;
      InnerConcat(a, x[1..], y, keep, make);
    }
  }

  lemma {:induction false} NestedConcat<A, B, T>(x: seq<A>, y: seq<A>, inner: seq<B>, keep: (A, B) -> bool,
                                                 make: (A, B) -> T)
    ensures Nested(x + y, inner, keep, make) == Nested(x, inner, keep, make) + Nested(y, inner, keep, make)
  {
    if x == [] {
      assert x + y == y;
    } else {
      assert (x + y)[1..] == x[1..] + y;
      NestedConcat(x[1..], y, inner, keep, make);
    }
  }

  lemma OneInner(p: Morsel.Tuple, b: Morsel.Tuple)
    ensures Inner(p, [b], SameFirst, Seconds) == if SameFirst(p, b) then [Seconds(p, b)] else []
  {
    assert Inner(p, [b][1..], SameFirst, Seconds) == [];
  }

  lemma {:induction false} PairsAreInner(build: seq<Morsel.Tuple>, probe: Morsel.Tuple)
    ensures Morsel.PairsWith(Morsel.ValuesOf(build, probe.0), probe.1) == Inner(probe, build, SameFirst, Seconds)
  {
    if build != [] {
      var init, last := build[..|build| - 1], build[|build| - 1];
      PairsAreInner(init, probe);
      InnerConcat(probe, init, [last], SameFirst, Seconds);
      assert build == init + [last];
      OneInner(probe, last);
    }
  }

  /** The join of tuples pairs the values stored under equal keys, the build side's in front: by the
      probe tuple first and then by the build tuple, each pair once. */
  lemma {:induction false} KeyJoinIsNested(build: seq<Morsel.Tuple>, probe: seq<Morsel.Tuple>)
    ensures Morsel.KeyJoin(build, probe) == Nested(probe, build, SameFirst, Seconds)
    decreases |probe|
  {
    if probe != [] {
      var init, last := probe[..|probe| - 1], probe[|probe| - 1];
      KeyJoinIsNested(build, init);
      PairsAreInner(build, last);
      NestedConcat(init, [last], build, SameFirst, Seconds);
      assert probe == init + [last];
      OneOuter(last, build);
    }
  }

  lemma OneOuter(p: Morsel.Tuple, build: seq<Morsel.Tuple>)
    ensures Nested([p], build, SameFirst, Seconds) == Inner(p, build, SameFirst, Seconds)
  {
    assert Nested([p][1..], build, SameFirst, Seconds) == [];
  }
}
