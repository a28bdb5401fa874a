/** The three join algorithms against the equality nested-loop join. */
module JoinCode {
  import opened Wrappers
  import opened Bytes
  import opened JoinModel
  import opened JoinProofs
  import opened ValueOrder

  // ---------------------------------------------------------------- nested loops

  function Theta(left: seq<Row>, right: seq<Row>, pred: (Row, Row) -> bool): seq<Row> {
    if left == [] then [] else ThetaRow(left[0], right, pred) + Theta(left[1..], right, pred)
  }

  function ThetaRow(l: Row, right: seq<Row>, pred: (Row, Row) -> bool): seq<Row> {
    if right == [] then []
    else if pred(l, right[0]) then [l + right[0]] + ThetaRow(l, right[1..], pred)
    else ThetaRow(l, right[1..], pred)
  }

  method NestedLoopJoin(left: seq<Row>, right: seq<Row>, pred: (Row, Row) -> bool) returns (results: seq<Row>)
    ensures results == Theta(left, right, pred)
  {
    results := [];
    for i := 0 to |left|
      invariant results + Theta(left[i..], right, pred) == Theta(left, right, pred)
    {
      ghost var done := results;
      assert left[i..][0] == left[i] && left[i..][1..] == left[i + 1..];
      for j := 0 to |right|
        invariant results + ThetaRow(left[i], right[j..], pred) == done + ThetaRow(left[i], right, pred)
      {
        assert right[j..][0] == right[j] && right[j..][1..] == right[j + 1..];
        if pred(left[i], right[j]) {
          results := results + [left[i] + right[j]];
        }
      }
      assert ThetaRow(left[i], right[|right|..], pred) == [];
      assert results == done + ThetaRow(left[i], right, pred);
      assert done + (ThetaRow(left[i], right, pred) + Theta(left[i + 1..], right, pred)) ==
             results + Theta(left[i + 1..], right, pred);
    }
  }

  lemma {:induction false} ThetaIsEquiJoin(left: seq<Row>, right: seq<Row>, lc: nat, rc: nat)
    ensures Theta(left, right, (l: Row, r: Row) => Matches(l, r, lc, rc)) == EquiJoin(left, right, lc, rc)
  {
    if left != [] {
      ThetaIsEquiJoin(left[1..], right, lc, rc);
      ThetaRowIsRowMatches(left[0], right, lc, rc);
    }
  }

  lemma {:induction false} ThetaRowIsRowMatches(l: Row, right: seq<Row>, lc: nat, rc: nat)
    ensures ThetaRow(l, right, (l: Row, r: Row) => Matches(l, r, lc, rc)) == RowMatches(l, right, lc, rc)
  {
    if right != [] {
      ThetaRowIsRowMatches(l, right[1..], lc, rc);
    }
  }

  // ---------------------------------------------------------------- hash join

  type Hash = Value -> U64

  /** The rows with a key of hash `h`, by index. */
  function Bucket(rows: seq<Row>, col: nat, hash: Hash, h: U64): (r: seq<nat>)
    ensures forall x :: 0 <= x < |r| ==> r[x] < |rows| && Key(rows[r[x]], col).Some?
  {
    if rows == [] then []
    else
      var n := |rows| - 1;
      if Key(rows[n], col).Some? && hash(Key(rows[n], col).value) == h then Bucket(rows[..n], col, hash, h) + [n]
      else Bucket(rows[..n], col, hash, h)
  }

  ghost predicate Table(table: map<U64, seq<nat>>, rows: seq<Row>, col: nat, hash: Hash) {
    forall h: U64 :: (if h in table then table[h] else []) == Bucket(rows, col, hash, h)
  }

  method BuildTable(build: seq<Row>, col: nat, hash: Hash) returns (table: map<U64, seq<nat>>)
    ensures Table(table, build, col, hash)
  {
    table := map[];
    for i := 0 to |build|
      invariant Table(table, build[..i], col, hash)
    {
      TableStep(table, build, i, col, hash);
      var key := Key(build[i], col);
      if key.Some? {
        var h := hash(key.value);
        if h !in table {
          table := table[h := []];
        }
        table := table[h := table[h] + [i]];
      }
    }
    assert build[..|build|] == build;
  }

  lemma TableStep(table: map<U64, seq<nat>>, build: seq<Row>, i: nat, col: nat, hash: Hash)
    requires i < |build| && Table(table, build[..i], col, hash)
    ensures var key := Key(build[i], col);
            var next := if key.None? then table
                        else
                          var h := hash(key.value);
                          table[h := (if h in table then table[h] else []) + [i]];
            Table(next, build[..i + 1], col, hash)
  {
    assert build[..i + 1][..i] == build[..i];
  }

  /** The rows of one bucket that match a probe row. */
  function BucketMatches(build: seq<Row>, bucket: seq<nat>, probe: Row, buildCol: nat, probeCol: nat,
                         buildIsLeft: bool): seq<Row>
    requires forall x :: 0 <= x < |bucket| ==> bucket[x] < |build|
  {
    if bucket == [] then []
    else
      var n := |bucket| - 1;
      var init := BucketMatches(build, bucket[..n], probe, buildCol, probeCol, buildIsLeft);
      var row := build[bucket[n]];
      if Matches(row, probe, buildCol, probeCol) then init + [if buildIsLeft then row + probe else probe + row] else init
  }

  /** All matching rows, whichever bucket they are in. */
  function ProbeMatches(build: seq<Row>, probe: Row, buildCol: nat, probeCol: nat, buildIsLeft: bool): seq<Row> {
    if build == [] then []
    else
      var n := |build| - 1;
      var init := ProbeMatches(build[..n], probe, buildCol, probeCol, buildIsLeft);
      if Matches(build[n], probe, buildCol, probeCol) then init + [if buildIsLeft then build[n] + probe else probe + build[n]]
      else init
  }

  /** Equal keys have equal hashes, so the bucket of the probe key holds all its matches. */
  lemma {:induction false} BucketIsEnough(all: seq<Row>, n: nat, probe: Row, bc: nat, pc: nat, left: bool, hash: Hash)
    requires n <= |all| && Key(probe, pc).Some?
    ensures BucketMatches(all, Bucket(all[..n], bc, hash, hash(Key(probe, pc).value)), probe, bc, pc, left) ==
            ProbeMatches(all[..n], probe, bc, pc, left)
  {
    if n > 0 {
      var rows, m, h := all[..n], n - 1, hash(Key(probe, pc).value);
      assert rows[..m] == all[..m];
      BucketIsEnough(all, m, probe, bc, pc, left, hash);
      MatchesKeys(all[m], probe, bc, pc);
      var b := Bucket(all[..m], bc, hash, h);
      assert (b + [m])[..|b|] == b;
    }
  }

  lemma {:induction false} NullProbe(build: seq<Row>, probe: Row, bc: nat, pc: nat, left: bool)
    requires Key(probe, pc).None?
    ensures ProbeMatches(build, probe, bc, pc, left) == []
  {
    if build != [] {
      NullProbe(build[..|build| - 1], probe, bc, pc, left);
      MatchesKeys(build[|build| - 1], probe, bc, pc);
    }
  }

  method ProbeRow(build: seq<Row>, table: map<U64, seq<nat>>, probe: Row, buildCol: nat, probeCol: nat,
                  buildIsLeft: bool, hash: Hash) returns (r: seq<Row>)
    requires Table(table, build, buildCol, hash)
    ensures r == ProbeMatches(build, probe, buildCol, probeCol, buildIsLeft)
  {
    r := [];
    var key := Key(probe, probeCol);
    if key.None? {
      NullProbe(build, probe, buildCol, probeCol, buildIsLeft);
      return;
    }
    BucketIsEnough(build, |build|, probe, buildCol, probeCol, buildIsLeft, hash);
    assert build[..|build|] == build;
    var h := hash(key.value);
    if h in table {
      r := ScanBucket(build, table[h], probe, buildCol, probeCol, buildIsLeft);
    }
  }

  method ScanBucket(build: seq<Row>, bucket: seq<nat>, probe: Row, buildCol: nat, probeCol: nat, buildIsLeft: bool)
    returns (r: seq<Row>)
    requires forall x :: 0 <= x < |bucket| ==> bucket[x] < |build| && Key(build[bucket[x]], buildCol).Some?
    requires Key(probe, probeCol).Some?
    ensures r == BucketMatches(build, bucket, probe, buildCol, probeCol, buildIsLeft)
  {
    r := [];
    for b := 0 to |bucket|
      invariant r == BucketMatches(build, bucket[..b], probe, buildCol, probeCol, buildIsLeft)
    {
      assert bucket[..b + 1][..b] == bucket[..b];
      var row := build[bucket[b]];
      if ValueEq(row[buildCol], probe[probeCol]) {
        r := r + [if buildIsLeft then row + probe else probe + row];
      }
    }
    assert bucket[..|bucket|] == bucket;
  }

  lemma {:induction false} ProbeIsColMatches(left: seq<Row>, r: Row, lc: nat, rc: nat)
    ensures ProbeMatches(left, r, lc, rc, true) == ColMatches(left, r, lc, rc)
  {
    if left != [] {
      var n := |left| - 1;
      ProbeIsColMatches(left[..n], r, lc, rc);
      ColMatchesConcat(left[..n], [left[n]], r, lc, rc);
      assert left == left[..n] + [left[n]];
    }
  }

  lemma {:induction false} ColMatchesConcat(a: seq<Row>, b: seq<Row>, r: Row, lc: nat, rc: nat)
    ensures ColMatches(a + b, r, lc, rc) == ColMatches(a, r, lc, rc) + ColMatches(b, r, lc, rc)
  {
    if a == [] {
      assert a + b == b;
    } else {
      assert (a + b)[1..] == a[1..] + b;
      ColMatchesConcat(a[1..], b, r, lc, rc);
    }
  }

  lemma {:induction false} ProbeIsRowMatches(right: seq<Row>, l: Row, lc: nat, rc: nat)
    ensures ProbeMatches(right, l, rc, lc, false) == RowMatches(l, right, lc, rc)
  {
    if right != [] {
      var n := |right| - 1;
      ProbeIsRowMatches(right[..n], l, lc, rc);
      RowMatchesConcat(l, right[..n], [right[n]], lc, rc);
      assert right == right[..n] + [right[n]];
      MatchesKeys(l, right[n], lc, rc);
      MatchesKeys(right[n], l, rc, lc);
    }
  }

  /** The same rows as the nested loops for any hash function, and in the same order when the right
      side is the smaller one. */
  method HashJoin(left: seq<Row>, right: seq<Row>, leftCol: nat, rightCol: nat, hash: Hash) returns (results: seq<Row>)
    ensures multiset(results) == multiset(EquiJoin(left, right, leftCol, rightCol))
    ensures |right| < |left| ==> results == EquiJoin(left, right, leftCol, rightCol)
    ensures |left| <= |right| ==> results == EquiJoinByRight(left, right, leftCol, rightCol)
  {
    results := [];
    if |left| <= |right| {
      var table := BuildTable(left, leftCol, hash);
      for j := 0 to |right|
        invariant results + EquiJoinByRight(left, right[j..], leftCol, rightCol) ==
                  EquiJoinByRight(left, right, leftCol, rightCol)
      {
        assert right[j..][0] == right[j] && right[j..][1..] == right[j + 1..];
        var found := ProbeRow(left, table, right[j], leftCol, rightCol, true, hash);
        ProbeIsColMatches(left, right[j], leftCol, rightCol);
        results := results + found;
      }
      LoopOrder(left, right, leftCol, rightCol);
    } else {
      var table := BuildTable(right, rightCol, hash);
      for i := 0 to |left|
        invariant results + EquiJoin(left[i..], right, leftCol, rightCol) == EquiJoin(left, right, leftCol, rightCol)
      {
        assert left[i..][0] == left[i] && left[i..][1..] == left[i + 1..];
        var found := ProbeRow(right, table, left[i], rightCol, leftCol, false, hash);
        ProbeIsRowMatches(right, left[i], leftCol, rightCol);
        results := results + found;
      }
    }
  }

  // ---------------------------------------------------------------- merge join

  /** The end of the run of rows from `start` that have the key of the first one. */
  method RunEnd(rows: seq<Row>, col: nat, start: nat) returns (end: nat)
    requires start < |rows| && Key(rows[start], col).Some?
    ensures start < end <= |rows|
    ensures var k := Key(rows[start], col).value;
            AllKeys(rows[start..end], col, k) && (end < |rows| ==> Key(rows[end], col) != Some(k))
  {
    end := start + 1;
    while end < |rows| && Key(rows[end], col).Some? && ValueCmp(Key(rows[end], col).value, rows[start][col]) == Equal
      invariant start < end <= |rows| && AllKeys(rows[start..end], col, rows[start][col])
    {
      CmpIsEq(Key(rows[end], col).value, rows[start][col]);
      assert rows[start..end + 1] == rows[start..end] + [rows[end]];
      end := end + 1;
    }
    if end < |rows| && Key(rows[end], col).Some? {
      CmpIsEq(Key(rows[end], col).value, rows[start][col]);
    }
  }

  /** Once a sorted input has left a key behind, the key does not come back. */
  lemma KeyIsBehind(rows: seq<Row>, col: nat, at: nat, end: nat, k: Value)
    requires Sorted(rows, col) && at < end <= |rows| && Key(rows[at], col) == Some(k)
    requires end < |rows| ==> Key(rows[end], col) != Some(k)
    ensures NoKey(rows[end..], col, k)
  {
    forall i | 0 <= i < |rows[end..]| ensures Key(rows[end..][i], col) != Some(k) {
      assert KeyLeq(Key(rows[at], col), Key(rows[end], col));
      if i > 0 {
        assert KeyLeq(Key(rows[end], col), Key(rows[end + i], col));
        NotBack(k, Key(rows[end], col), Key(rows[end + i], col));
      }
    }
  }

  lemma NotBack(k: Value, next: Option<Value>, later: Option<Value>)
    requires KeyLeq(Some(k), next) && next != Some(k) && KeyLeq(next, later) && k != Null
    ensures later != Some(k)
  {
    CmpIsEq(k, next.value);
    CmpIsEq(next.value, k);
  }

  /** A key below the next one of a sorted input matches none of its remaining rows. */
  lemma SmallerMatchesNone(l: Row, right: seq<Row>, j: nat, lc: nat, rc: nat)
    requires Sorted(right, rc) && j < |right| && Key(l, lc).Some? && Key(right[j], rc).Some?
    requires ValueCmp(Key(l, lc).value, Key(right[j], rc).value) == Less
    ensures RowMatches(l, right[j..], lc, rc) == []
  {
    var k := Key(l, lc).value;
    forall m | 0 <= m < |right[j..]| ensures !Matches(l, right[j..][m], lc, rc) {
      MatchesKeys(l, right[j + m], lc, rc);
      CmpIsEq(k, k);
      if m > 0 {
        assert KeyLeq(Key(right[j], rc), Key(right[j + m], rc));
        CmpTransitive(k, Key(right[j], rc).value, Key(right[j + m], rc).value);
      }
    }
    NoRowMatches(l, right[j..], lc, rc);
  }

  lemma GreaterMatchesNone(left: seq<Row>, i: nat, r: Row, lc: nat, rc: nat)
    requires Sorted(left, lc) && i < |left| && Key(left[i], lc).Some? && Key(r, rc).Some?
    requires ValueCmp(Key(left[i], lc).value, Key(r, rc).value) == Greater
    ensures Apart(left[i..], [r], lc, rc)
  {
    var k := Key(r, rc).value;
    CmpIsEq(k, Key(left[i], lc).value);
    forall m | 0 <= m < |left[i..]| ensures Unmatched(left[i..][m], [r], lc, rc) {
      MatchesKeys(left[i + m], r, lc, rc);
      CmpIsEq(k, k);
      if m > 0 {
        assert KeyLeq(Key(left[i], lc), Key(left[i + m], lc));
        CmpTransitive(k, Key(left[i], lc).value, Key(left[i + m], lc).value);
      }
    }
  }

  lemma NullRowMatchesNone(l: Row, right: seq<Row>, lc: nat, rc: nat)
    requires Key(l, lc).None?
    ensures RowMatches(l, right, lc, rc) == []
  {
    forall j | 0 <= j < |right| ensures !Matches(l, right[j], lc, rc) {
      MatchesKeys(l, right[j], lc, rc);
    }
    NoRowMatches(l, right, lc, rc);
  }

  lemma NullMatchedByNone(left: seq<Row>, r: Row, lc: nat, rc: nat)
    requires Key(r, rc).None?
    ensures Apart(left, [r], lc, rc)
  {
    forall i | 0 <= i < |left| ensures Unmatched(left[i], [r], lc, rc) {
      MatchesKeys(left[i], r, lc, rc);
    }
  }

  /** What is emitted and what is still to be joined make up the whole join. */
  ghost predicate Going(results: seq<Row>, left: seq<Row>, right: seq<Row>, i: nat, j: nat, lc: nat, rc: nat) {
    && i <= |left| && j <= |right|
    && results + EquiJoin(left[i..], right[j..], lc, rc) == EquiJoin(left, right, lc, rc)
  }

  lemma SkipLeft(results: seq<Row>, left: seq<Row>, right: seq<Row>, i: nat, j: nat, lc: nat, rc: nat)
    requires i < |left| && Going(results, left, right, i, j, lc, rc) && RowMatches(left[i], right[j..], lc, rc) == []
    ensures Going(results, left, right, i + 1, j, lc, rc)
  {
    assert left[i..][0] == left[i] && left[i..][1..] == left[i + 1..];
  }

  lemma SkipRight(results: seq<Row>, left: seq<Row>, right: seq<Row>, i: nat, j: nat, lc: nat, rc: nat)
    requires j < |right| && Going(results, left, right, i, j, lc, rc) && Apart(left[i..], [right[j]], lc, rc)
    ensures Going(results, left, right, i, j + 1, lc, rc)
  {
    assert right[j..] == [right[j]] + right[j + 1..];
    DropRight(left[i..], [right[j]], right[j + 1..], lc, rc);
  }

  lemma TakeRuns(results: seq<Row>, left: seq<Row>, right: seq<Row>, i: nat, j: nat, leftEnd: nat, rightEnd: nat,
                 lc: nat, rc: nat, k: Value)
    requires i < leftEnd <= |left| && j < rightEnd <= |right| && Going(results, left, right, i, j, lc, rc)
    requires AllKeys(left[i..leftEnd], lc, k) && NoKey(left[leftEnd..], lc, k)
    requires AllKeys(right[j..rightEnd], rc, k) && NoKey(right[rightEnd..], rc, k)
    ensures Going(results + Cross(left[i..leftEnd], right[j..rightEnd]), left, right, leftEnd, rightEnd, lc, rc)
  {
    assert left[i..] == left[i..leftEnd] + left[leftEnd..];
    assert right[j..] == right[j..rightEnd] + right[rightEnd..];
    RunsJoin(left[i..leftEnd], left[leftEnd..], right[j..rightEnd], right[rightEnd..], lc, rc, k);
  }

  lemma GoingDone(results: seq<Row>, left: seq<Row>, right: seq<Row>, i: nat, j: nat, lc: nat, rc: nat)
    requires Going(results, left, right, i, j, lc, rc) && (i == |left| || j == |right|)
    ensures results == EquiJoin(left, right, lc, rc)
  {
    NoRightRows(left[i..], lc, rc);
  }

  method CrossProduct(left: seq<Row>, right: seq<Row>) returns (r: seq<Row>)
    ensures r == Cross(left, right)
  {
    r := [];
    for i := 0 to |left|
      invariant r + Cross(left[i..], right) == Cross(left, right)
    {
      ghost var done := r;
      assert left[i..][0] == left[i] && left[i..][1..] == left[i + 1..];
      for j := 0 to |right|
        invariant r + Pairs(left[i], right[j..]) == done + Pairs(left[i], right)
      {
        assert right[j..][0] == right[j] && right[j..][1..] == right[j + 1..];
        r := r + [left[i] + right[j]];
      }
      assert Pairs(left[i], right[|right|..]) == [];
      assert r == done + Pairs(left[i], right);
      assert done + (Pairs(left[i], right) + Cross(left[i + 1..], right)) == r + Cross(left[i + 1..], right);
    }
  }

  /** On sorted inputs a merge gives the very sequence of the nested loops, duplicates and NULL rows
      included. */
  method MergeJoin(left: seq<Row>, right: seq<Row>, leftCol: nat, rightCol: nat) returns (results: seq<Row>)
    requires Ascending(left, leftCol) && Ascending(right, rightCol)
    ensures results == EquiJoin(left, right, leftCol, rightCol)
  {
    SortedExact(left, leftCol);
    SortedExact(right, rightCol);
    results := [];
    if left == [] || right == [] {
      NoRightRows(left, leftCol, rightCol);
      return;
    }
    var i, j := 0, 0;
    while i < |left| && j < |right|
      invariant Going(results, left, right, i, j, leftCol, rightCol)
      decreases |left| - i + |right| - j
    {
      var l, r := Key(left[i], leftCol), Key(right[j], rightCol);
      if l.None? {
        NullRowMatchesNone(left[i], right[j..], leftCol, rightCol);
        SkipLeft(results, left, right, i, j, leftCol, rightCol);
        i := i + 1;
      } else if r.None? {
        NullMatchedByNone(left[i..], right[j], leftCol, rightCol);
        SkipRight(results, left, right, i, j, leftCol, rightCol);
        j := j + 1;
      } else {
        match ValueCmp(l.value, r.value)
        case Less =>
          SmallerMatchesNone(left[i], right, j, leftCol, rightCol);
          SkipLeft(results, left, right, i, j, leftCol, rightCol);
          i := i + 1;
        case Greater =>
          GreaterMatchesNone(left, i, right[j], leftCol, rightCol);
          SkipRight(results, left, right, i, j, leftCol, rightCol);
          j := j + 1;
        case Equal =>
          CmpIsEq(l.value, r.value);
          var leftEnd := RunEnd(left, leftCol, i);
          var rightEnd := RunEnd(right, rightCol, j);
          KeyIsBehind(left, leftCol, i, leftEnd, l.value);
          KeyIsBehind(right, rightCol, j, rightEnd, l.value);
          TakeRuns(results, left, right, i, j, leftEnd, rightEnd, leftCol, rightCol, l.value);
          var pairs := CrossProduct(left[i..leftEnd], right[j..rightEnd]);
          results := results + pairs;
          i, j := leftEnd, rightEnd;
      }
    }
    GoingDone(results, left, right, i, j, leftCol, rightCol);
  }

  // ---------------------------------------------------------------- the dispatcher

  datatype JoinMethod = ByHash | ByNestedLoop | ByMerge

  method Join(left: seq<Row>, right: seq<Row>, leftCol: nat, rightCol: nat, how: JoinMethod, hash: Hash)
    returns (results: seq<Row>)
    requires how.ByMerge? ==> Ascending(left, leftCol) && Ascending(right, rightCol)
    ensures multiset(results) == multiset(EquiJoin(left, right, leftCol, rightCol))
    ensures !how.ByHash? ==> results == EquiJoin(left, right, leftCol, rightCol)
  {
    match how
    case ByHash => results := HashJoin(left, right, leftCol, rightCol, hash);
    case ByMerge => results := MergeJoin(left, right, leftCol, rightCol);
    case ByNestedLoop =>
      results := NestedLoopJoin(left, right, (l: Row, r: Row) => Matches(l, r, leftCol, rightCol));
      ThetaIsEquiJoin(left, right, leftCol, rightCol);
  }
}
