/** The key order is total and agrees with key equality; loop order changes only row order; a merge
    of sorted inputs misses and repeats nothing. */
module JoinProofs {
  import opened Wrappers
  import opened Bytes
  import Lex
  import opened JoinModel

  // ---------------------------------------------------------------- the key order

  /** Two keys compare equal exactly when they are equal, and comparison is antisymmetric. */
  lemma CmpIsEq(a: Value, b: Value)
    ensures ValueCmp(a, b) == Equal && a != Null <==> ValueEq(a, b)
    ensures ValueEq(a, b) <==> a == b && a != Null
    ensures ValueCmp(a, b) == Less <==> ValueCmp(b, a) == Greater
  {
    if a.Blob? && b.Blob? {
      Lex.LessTotal(a.bytes, b.bytes);
      Lex.LessIrreflexive(a.bytes);
      if Lex.Less(a.bytes, b.bytes) && Lex.Less(b.bytes, a.bytes) {
        Lex.LessTransitive(a.bytes, b.bytes, a.bytes);
      }
    }
  }

  lemma BytesCmpTransitive(a: seq<Byte>, b: seq<Byte>, c: seq<Byte>)
    requires ValueCmp(Blob(a), Blob(b)) != Greater && ValueCmp(Blob(b), Blob(c)) != Greater
    ensures ValueCmp(Blob(a), Blob(c)) != Greater
  {
    if Lex.Less(a, b) && Lex.Less(b, c) {
      Lex.LessTransitive(a, b, c);
    }
  }

  /** The comparison is a total preorder. */
  lemma CmpTransitive(a: Value, b: Value, c: Value)
    requires ValueCmp(a, b) != Greater && ValueCmp(b, c) != Greater
    ensures ValueCmp(a, c) != Greater
    ensures ValueCmp(a, b) == Less || ValueCmp(b, c) == Less ==> ValueCmp(a, c) == Less
  {
    if a.Blob? && b.Blob? && c.Blob? {
      BytesCmpTransitive(a.bytes, b.bytes, c.bytes);
      CmpIsEq(a, c);
      CmpIsEq(a, b);
      CmpIsEq(b, c);
    }
  }

  lemma MatchesKeys(l: Row, r: Row, lc: nat, rc: nat)
    ensures Matches(l, r, lc, rc) <==> Key(l, lc).Some? && Key(l, lc) == Key(r, rc)
  {
    if lc < |l| && rc < |r| {
      CmpIsEq(l[lc], r[rc]);
    }
  }

  // ---------------------------------------------------------------- loop order

  lemma {:induction false} RowMatchesConcat(l: Row, a: seq<Row>, b: seq<Row>, lc: nat, rc: nat)
    ensures RowMatches(l, a + b, lc, rc) == RowMatches(l, a, lc, rc) + RowMatches(l, b, lc, rc)
  {
    if a == [] {
      assert a + b == b;
    } else {
      assert (a + b)[1..] == a[1..] + b;
      RowMatchesConcat(l, a[1..], b, lc, rc);
    }
  }

  lemma {:induction false} EquiJoinConcat(a: seq<Row>, b: seq<Row>, right: seq<Row>, lc: nat, rc: nat)
    ensures EquiJoin(a + b, right, lc, rc) == EquiJoin(a, right, lc, rc) + EquiJoin(b, right, lc, rc)
  {
    if a == [] {
      assert a + b == b;
    } else {
      assert (a + b)[1..] == a[1..] + b;
      EquiJoinConcat(a[1..], b, right, lc, rc);
    }
  }

  /** Splitting off the first right row splits off its matches. */
  lemma {:induction false} FirstRightRow(left: seq<Row>, right: seq<Row>, lc: nat, rc: nat)
    requires right != []
    ensures multiset(EquiJoin(left, right, lc, rc)) ==
            multiset(ColMatches(left, right[0], lc, rc)) + multiset(EquiJoin(left, right[1..], lc, rc))
  {
    if left != [] {
      FirstRightRow(left[1..], right, lc, rc);
      FirstRightStep(left, right, lc, rc);
    }
  }

  lemma FirstRightStep(left: seq<Row>, right: seq<Row>, lc: nat, rc: nat)
    requires left != [] && right != []
    requires multiset(EquiJoin(left[1..], right, lc, rc)) ==
             multiset(ColMatches(left[1..], right[0], lc, rc)) + multiset(EquiJoin(left[1..], right[1..], lc, rc))
    ensures multiset(EquiJoin(left, right, lc, rc)) ==
            multiset(ColMatches(left, right[0], lc, rc)) + multiset(EquiJoin(left, right[1..], lc, rc))
  {
    var l, r := left[0], right[0];
    var tail := RowMatches(l, right[1..], lc, rc);
    var inner := EquiJoin(left[1..], right, lc, rc);
    var rest := EquiJoin(left[1..], right[1..], lc, rc);
    var cols := ColMatches(left[1..], r, lc, rc);
    if Matches(l, r, lc, rc) {
      assert multiset([l + r] + tail + inner) == multiset{l + r} + multiset(tail) + multiset(inner);
      assert multiset([l + r] + cols) == multiset{l + r} + multiset(cols);
    } else {
      assert multiset(tail + inner) == multiset(tail) + multiset(inner);
    }
    assert multiset(tail + rest) == multiset(tail) + multiset(rest);
  }

  lemma {:induction false} NoRightRows(left: seq<Row>, lc: nat, rc: nat)
    ensures EquiJoin(left, [], lc, rc) == []
  {
    if left != [] {
      NoRightRows(left[1..], lc, rc);
    }
  }

  /** With the loops the other way round the same rows come out, as often. */
  lemma {:induction false} LoopOrder(left: seq<Row>, right: seq<Row>, lc: nat, rc: nat)
    ensures multiset(EquiJoinByRight(left, right, lc, rc)) == multiset(EquiJoin(left, right, lc, rc))
    decreases |right|
  {
    if right == [] {
      NoRightRows(left, lc, rc);
    } else {
      LoopOrder(left, right[1..], lc, rc);
      FirstRightRow(left, right, lc, rc);
      var a, b := ColMatches(left, right[0], lc, rc), EquiJoinByRight(left, right[1..], lc, rc);
      assert multiset(a + b) == multiset(a) + multiset(b);
    }
  }

  // ---------------------------------------------------------------- rows without matches

  lemma {:induction false} NoRowMatches(l: Row, right: seq<Row>, lc: nat, rc: nat)
    requires Unmatched(l, right, lc, rc)
    ensures RowMatches(l, right, lc, rc) == []
  {
    if right != [] {
      NoRowMatches(l, right[1..], lc, rc);
    }
  }

  ghost predicate Unmatched(l: Row, right: seq<Row>, lc: nat, rc: nat) {
    forall j :: 0 <= j < |right| ==> !Matches(l, right[j], lc, rc)
  }

  ghost predicate Apart(left: seq<Row>, right: seq<Row>, lc: nat, rc: nat) {
    forall i :: 0 <= i < |left| ==> Unmatched(left[i], right, lc, rc)
  }

  /** Right rows that no left row matches can be dropped from the front. */
  lemma {:induction false} DropRight(left: seq<Row>, front: seq<Row>, rest: seq<Row>, lc: nat, rc: nat)
    requires Apart(left, front, lc, rc)
    ensures EquiJoin(left, front + rest, lc, rc) == EquiJoin(left, rest, lc, rc)
  {
    if left != [] {
      RowMatchesConcat(left[0], front, rest, lc, rc);
      NoRowMatches(left[0], front, lc, rc);
      DropRight(left[1..], front, rest, lc, rc);
    }
  }

  // ---------------------------------------------------------------- runs of equal keys

  /** All rows have the key `k`. */
  ghost predicate AllKeys(rows: seq<Row>, col: nat, k: Value) {
    forall i :: 0 <= i < |rows| ==> Key(rows[i], col) == Some(k)
  }

  ghost predicate NoKey(rows: seq<Row>, col: nat, k: Value) {
    forall i :: 0 <= i < |rows| ==> Key(rows[i], col) != Some(k)
  }

  function Pairs(l: Row, right: seq<Row>): seq<Row> {
    if right == [] then [] else [l + right[0]] + Pairs(l, right[1..])
  }

  function Cross(left: seq<Row>, right: seq<Row>): seq<Row> {
    if left == [] then [] else Pairs(left[0], right) + Cross(left[1..], right)
  }

  lemma {:induction false} RunRowMatches(l: Row, run: seq<Row>, lc: nat, rc: nat, k: Value)
    requires Key(l, lc) == Some(k) && AllKeys(run, rc, k)
    ensures RowMatches(l, run, lc, rc) == Pairs(l, run)
  {
    if run != [] {
      MatchesKeys(l, run[0], lc, rc);
      RunRowMatches(l, run[1..], lc, rc, k);
    }
  }

  /** A row with the key of a run matches the run and nothing behind it. */
  lemma RunMatches(l: Row, run: seq<Row>, rest: seq<Row>, lc: nat, rc: nat, k: Value)
    requires Key(l, lc) == Some(k) && AllKeys(run, rc, k) && NoKey(rest, rc, k)
    ensures RowMatches(l, run + rest, lc, rc) == Pairs(l, run)
  {
    RowMatchesConcat(l, run, rest, lc, rc);
    RunRowMatches(l, run, lc, rc, k);
    forall j | 0 <= j < |rest| ensures !Matches(l, rest[j], lc, rc) {
      MatchesKeys(l, rest[j], lc, rc);
    }
    NoRowMatches(l, rest, lc, rc);
  }

  lemma {:induction false} RunJoin(left: seq<Row>, run: seq<Row>, rest: seq<Row>, lc: nat, rc: nat, k: Value)
    requires AllKeys(left, lc, k) && AllKeys(run, rc, k) && NoKey(rest, rc, k)
    ensures EquiJoin(left, run + rest, lc, rc) == Cross(left, run)
  {
    if left != [] {
      RunMatches(left[0], run, rest, lc, rc, k);
      RunJoin(left[1..], run, rest, lc, rc, k);
    }
  }

  /** Two runs of one key at the front contribute their cross product and are then done with. */
  lemma RunsJoin(lrun: seq<Row>, lrest: seq<Row>, rrun: seq<Row>, rrest: seq<Row>, lc: nat, rc: nat, k: Value)
    requires AllKeys(lrun, lc, k) && NoKey(lrest, lc, k) && AllKeys(rrun, rc, k) && NoKey(rrest, rc, k)
    ensures EquiJoin(lrun + lrest, rrun + rrest, lc, rc) == Cross(lrun, rrun) + EquiJoin(lrest, rrest, lc, rc)
  {
    EquiJoinConcat(lrun, lrest, rrun + rrest, lc, rc);
    RunJoin(lrun, rrun, rrest, lc, rc, k);
    forall i | 0 <= i < |lrest| ensures Unmatched(lrest[i], rrun, lc, rc) {
      forall j | 0 <= j < |rrun| ensures !Matches(lrest[i], rrun[j], lc, rc) {
        MatchesKeys(lrest[i], rrun[j], lc, rc);
      }
    }
    DropRight(lrest, rrun, rrest, lc, rc);
  }
}
