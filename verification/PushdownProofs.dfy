/** Filter pushdown keeps what a plan means, reaches a normal form and loses no conjunct. */
module PushdownProofs {
  import opened Wrappers
  import opened PlanModel
  import opened Pushdown

  // ---------------------------------------------------------------- splitting and joining

  predicate AndFree(c: Conjunct) { forall w :: w in c ==> !IsAnd(w) }

  predicate Proper(c: Conjunct) { c != [] && AndFree(c) }

  predicate AllProper(cs: seq<Conjunct>) { forall c :: c in cs ==> Proper(c) }

  predicate AllOrFree(cs: seq<Conjunct>) { forall c :: c in cs ==> OrFree(c) }

  lemma {:induction false} SplitMerged(run: seq<Word>, a: Predicate, b: Predicate)
    ensures SplitAndFrom(run, a + ["and"] + b) == SplitAndFrom(run, a) + SplitAnd(b)
    decreases a
  {
    var whole := a + ["and"] + b;
    if a == [] {
      assert whole[1..] == b;
    } else {
      assert whole[1..] == a[1..] + ["and"] + b;
      if IsAnd(a[0]) {
        SplitMerged([], a[1..], b);
      } else {
        SplitMerged(run + [a[0]], a[1..], b);
      }
    }
  }

  lemma {:induction false} SplitAndFreeRun(run: seq<Word>, c: Conjunct)
    requires AndFree(c)
    ensures SplitAndFrom(run, c) == Run(run + c)
    decreases c
  {
    if c == [] {
      assert run + c == run;
    } else {
      SplitAndFreeRun(run + [c[0]], c[1..]);
      assert run + [c[0]] + c[1..] == run + c;
    }
  }

  /** Splitting undoes joining. */
  lemma {:induction false} SplitJoined(cs: seq<Conjunct>)
    requires AllProper(cs)
    ensures SplitAnd(JoinAnd(cs)) == cs
  {
    if cs != [] {
      assert Proper(cs[0]);
      SplitAndFreeRun([], cs[0]);
      assert [] + cs[0] == cs[0];
      if |cs| == 1 {
        assert cs == [cs[0]] && JoinAnd(cs) == cs[0];
      } else {
        SplitJoined(cs[1..]);
        SplitMerged([], cs[0], JoinAnd(cs[1..]));
        assert [cs[0]] + cs[1..] == cs;
      }
    }
  }

  lemma {:induction false} SplitIsProper(run: seq<Word>, p: Predicate)
    requires AndFree(run)
    ensures AllProper(SplitAndFrom(run, p))
    ensures OrFree(run) && OrFree(p) ==> AllOrFree(SplitAndFrom(run, p))
    decreases p
  {
    if p != [] {
      if IsAnd(p[0]) {
        SplitIsProper([], p[1..]);
      } else {
        SplitIsProper(run + [p[0]], p[1..]);
      }
    }
  }

  lemma {:induction false} JoinIsOrFree(cs: seq<Conjunct>)
    requires AllOrFree(cs)
    ensures OrFree(JoinAnd(cs))
  {
    if |cs| > 1 {
      JoinIsOrFree(cs[1..]);
      assert cs[0] in cs;
    }
  }

  lemma {:induction false} SplitOrOfOrFree(run: seq<Word>, p: Predicate)
    requires OrFree(p)
    ensures SplitOrFrom(run, p) == [run + p]
    decreases p
  {
    if p == [] {
      assert run + p == run;
    } else {
      SplitOrOfOrFree(run + [p[0]], p[1..]);
      assert run + [p[0]] + p[1..] == run + p;
    }
  }

  /** Without `or`, a predicate is the conjunction of its conjuncts. */
  lemma OrFreeHolds(s: Semantics, p: Predicate, row: Row)
    requires OrFree(p)
    ensures Holds(s, p, row) <==> AllHold(s, SplitAnd(p), row)
  {
    SplitOrOfOrFree([], p);
    assert [] + p == p;
    assert p in SplitOrFrom([], p);
  }

  // ---------------------------------------------------------------- namespaces

  lemma {:induction false} CellsConcat(a: Row, b: Row, c: Conjunct)
    ensures CellsOf(a + b, c) == CellsOf(a, c) + CellsOf(b, c)
  {
    if a == [] {
      assert a + b == b;
    } else {
      CellsConcat(a[1..], b, c);
      assert (a + b)[1..] == a[1..] + b;
    }
  }

  lemma {:induction false} NoCells(row: Row, tables: seq<string>, c: Conjunct)
    requires RowWithin(row, tables) && !MentionsAny(c, tables)
    ensures CellsOf(row, c) == []
  {
    if row != [] {
      assert row[0] in row;
      NoCells(row[1..], tables, c);
    }
  }

  /** A conjunct that names no table of the other input reads only its own side of the pair. */
  lemma HoldsOnSide(s: Semantics, c: Conjunct, l: Row, r: Row, lt: seq<string>, rt: seq<string>)
    requires Namespaced(s) && RowWithin(l, lt) && RowWithin(r, rt)
    ensures !MentionsAny(c, rt) ==> s.holds(c, l + r) == s.holds(c, l)
    ensures !MentionsAny(c, lt) ==> s.holds(c, l + r) == s.holds(c, r)
  {
    CellsConcat(l, r, c);
    if !MentionsAny(c, rt) {
      NoCells(r, rt, c);
      assert CellsOf(l + r, c) == CellsOf(l, c);
    }
    if !MentionsAny(c, lt) {
      NoCells(l, lt, c);
      assert CellsOf(l + r, c) == CellsOf(r, c);
    }
  }

  // ---------------------------------------------------------------- tables of a plan

  /** Table names depend on the skeleton alone. */
  lemma {:induction false} TablesOfSkeleton(plan: Plan, out: seq<string>)
    ensures TableNamesFrom(Skeleton(plan), out) == TableNamesFrom(plan, out)
  {
    match plan
    case Scan(_, _) =>
    case Join(left, right, _) =>
      TablesOfSkeleton(left, out);
      TablesOfSkeleton(right, TableNamesFrom(left, out));
    case Filter(input, _) => TablesOfSkeleton(input, out);
    case Project(input, _) => TablesOfSkeleton(input, out);
    case Sort(input, _) => TablesOfSkeleton(input, out);
    case Aggregate(input, _, _) => TablesOfSkeleton(input, out);
    case Limit(input, _) => TablesOfSkeleton(input, out);
  }

  lemma SameTables(a: Plan, b: Plan)
    requires Skeleton(a) == Skeleton(b)
    ensures TableNames(a) == TableNames(b)
  {
    TablesOfSkeleton(a, []);
    TablesOfSkeleton(b, []);
  }

  ghost predicate Covers(big: seq<string>, small: seq<string>) {
    forall t :: t in small ==> t in big
  }

  lemma {:induction false} TableNamesGrow(plan: Plan, out: seq<string>)
    ensures Covers(TableNamesFrom(plan, out), out)
  {
    match plan
    case Scan(_, _) =>
    case Join(left, right, _) =>
      TableNamesGrow(left, out);
      TableNamesGrow(right, TableNamesFrom(left, out));
    case Filter(input, _) => TableNamesGrow(input, out);
    case Project(input, _) => TableNamesGrow(input, out);
    case Sort(input, _) => TableNamesGrow(input, out);
    case Aggregate(input, _, _) => TableNamesGrow(input, out);
    case Limit(input, _) => TableNamesGrow(input, out);
  }

  lemma WithinCovered(rows: seq<Row>, small: seq<string>, big: seq<string>)
    requires Within(rows, small) && Covers(big, small)
    ensures Within(rows, big)
  {
    forall row | row in rows ensures RowWithin(row, big) {
      assert RowWithin(row, small);
    }
  }

  lemma {:induction false} FilterWithin(s: Semantics, p: Predicate, rows: seq<Row>, ts: seq<string>)
    requires Within(rows, ts)
    ensures Within(FilterRows(s, p, rows), ts)
  {
    if rows != [] {
      assert RowWithin(rows[0], ts);
      FilterWithin(s, p, rows[1..], ts);
    }
  }

  lemma {:induction false} MatchWithin(s: Semantics, condition: Predicate, l: Row, right: seq<Row>, ts: seq<string>)
    requires RowWithin(l, ts) && Within(right, ts)
    ensures Within(MatchRow(s, condition, l, right), ts)
  {
    if right != [] {
      assert RowWithin(right[0], ts);
      assert RowWithin(l + right[0], ts);
      MatchWithin(s, condition, l, right[1..], ts);
    }
  }

  lemma {:induction false} JoinWithin(s: Semantics, condition: Predicate, left: seq<Row>, right: seq<Row>, ts: seq<string>)
    requires Within(left, ts) && Within(right, ts)
    ensures Within(JoinRows(s, condition, left, right), ts)
  {
    if left != [] {
      assert RowWithin(left[0], ts);
      MatchWithin(s, condition, left[0], right, ts);
      JoinWithin(s, condition, left[1..], right, ts);
    }
  }

  /** Every plan's rows stay within the tables it names. */
  lemma {:induction false} RowsWithin(s: Semantics, plan: Plan, out: seq<string>)
    requires Namespaced(s)
    ensures Within(Rows(s, plan), TableNamesFrom(plan, out))
  {
    var ts := TableNamesFrom(plan, out);
    match plan
    case Scan(table, pushed) =>
      assert Within(s.rows(table, pushed), [table]);
      WithinCovered(s.rows(table, pushed), [table], ts);
    case Join(left, right, c) =>
      var ts1 := TableNamesFrom(left, out);
      RowsWithin(s, left, out);
      TableNamesGrow(right, ts1);
      WithinCovered(Rows(s, left), ts1, ts);
      RowsWithin(s, right, ts1);
      JoinWithin(s, c, Rows(s, left), Rows(s, right), ts);
    case Filter(input, p) =>
      RowsWithin(s, input, out);
      FilterWithin(s, p, Rows(s, input), ts);
    case Project(input, cols) => RowsWithin(s, input, out);
    case Sort(input, col) => RowsWithin(s, input, out);
    case Aggregate(input, k, aggs) => RowsWithin(s, input, out);
    case Limit(input, n) => RowsWithin(s, input, out);
  }

  // ---------------------------------------------------------------- picking conjuncts

  lemma {:induction false} PickSubset(cs: seq<Conjunct>, side: Side, lt: seq<string>, rt: seq<string>)
    ensures AllProper(cs) ==> AllProper(Pick(cs, side, lt, rt))
    ensures AllOrFree(cs) ==> AllOrFree(Pick(cs, side, lt, rt))
    ensures forall c :: c in Pick(cs, side, lt, rt) ==> c in cs && ConjunctSide(c, lt, rt) == side
  {
    if cs != [] {
      PickSubset(cs[1..], side, lt, rt);
      assert cs[0] in cs && forall c :: c in cs[1..] ==> c in cs;
    }
  }

  // ---------------------------------------------------------------- normal form

  /** No filter sits on a filter; a filter on a join holds, written canonically, only conjuncts
      that name tables of both sides or of none. */
  ghost predicate Normal(plan: Plan) {
    match plan
    case Scan(_, _) => true
    case Filter(input, p) =>
      && Normal(input) && !input.Filter?
      && (input.Join? ==> Undecided(p, TableNames(input.left), TableNames(input.right)))
    case Join(left, right, _) => Normal(left) && Normal(right)
    case Project(input, _) => Normal(input)
    case Sort(input, _) => Normal(input)
    case Aggregate(input, _, _) => Normal(input)
    case Limit(input, _) => Normal(input)
  }

  ghost predicate Undecided(p: Predicate, lt: seq<string>, rt: seq<string>) {
    var cs := SplitAnd(p);
    cs != [] && p == JoinAnd(cs) && forall c :: c in cs ==> (MentionsAny(c, lt) <==> MentionsAny(c, rt))
  }

  lemma {:induction false} PushDownIsNormal(plan: Plan)
    ensures Normal(PushDown(plan))
    decreases Weight(plan), 1, plan
  {
    match plan
    case Scan(_, _) =>
    case Filter(input, p) =>
      PushDownIsNormal(input);
      PushIntoIsNormal(PushDown(input), p);
    case Join(left, right, _) =>
      PushDownIsNormal(left);
      PushDownIsNormal(right);
    case Project(input, _) => PushDownIsNormal(input);
    case Sort(input, _) => PushDownIsNormal(input);
    case Aggregate(input, _, _) => PushDownIsNormal(input);
    case Limit(input, _) => PushDownIsNormal(input);
  }

  lemma {:induction false} PushIntoIsNormal(input: Plan, p: Predicate)
    requires Normal(input)
    ensures Normal(PushFilterInto(input, p))
    decreases Weight(input), 0, input
  {
    match input
    case Join(left, right, c) =>
      var lt, rt, cs := TableNames(left), TableNames(right), SplitAnd(p);
      var onLeft, onRight, top := Pick(cs, LeftOnly, lt, rt), Pick(cs, RightOnly, lt, rt), Pick(cs, Neither, lt, rt);
      PushSideIsNormal(left, onLeft);
      PushSideIsNormal(right, onRight);
      SameTables(PushSide(left, onLeft), left);
      SameTables(PushSide(right, onRight), right);
      SplitIsProper([], p);
      PickSubset(cs, Neither, lt, rt);
      SplitJoined(top);
    case Filter(inner, q) => PushIntoIsNormal(inner, q + ["and"] + p);
    case _ =>
  }

  lemma {:induction false} PushSideIsNormal(side: Plan, cs: seq<Conjunct>)
    ensures Normal(PushSide(side, cs))
    decreases Weight(side), 2, side
  {
    PushDownIsNormal(side);
    if cs != [] {
      PushIntoIsNormal(PushDown(side), JoinAnd(cs));
    }
  }

  lemma {:induction false} PickAllNeither(cs: seq<Conjunct>, lt: seq<string>, rt: seq<string>)
    requires forall c :: c in cs ==> ConjunctSide(c, lt, rt) == Neither
    ensures Pick(cs, LeftOnly, lt, rt) == [] && Pick(cs, RightOnly, lt, rt) == []
    ensures Pick(cs, Neither, lt, rt) == cs
  {
    if cs != [] {
      assert cs[0] in cs;
      PickAllNeither(cs[1..], lt, rt);
      assert [cs[0]] + cs[1..] == cs;
    }
  }

  lemma NormalJoinIsFixed(join: Plan, p: Predicate)
    requires join.Join? && PushDown(join) == join
    requires Undecided(p, TableNames(join.left), TableNames(join.right))
    ensures PushFilterInto(join, p) == Filter(join, p)
  {
    var lt, rt, cs := TableNames(join.left), TableNames(join.right), SplitAnd(p);
    PickAllNeither(cs, lt, rt);
    assert PushSide(join.left, Pick(cs, LeftOnly, lt, rt)) == PushDown(join.left);
    assert PushSide(join.right, Pick(cs, RightOnly, lt, rt)) == PushDown(join.right);
  }

  lemma {:induction false} NormalIsFixed(plan: Plan)
    requires Normal(plan)
    ensures PushDown(plan) == plan
  {
    match plan
    case Scan(_, _) =>
    case Filter(input, p) =>
      NormalIsFixed(input);
      if input.Join? {
        NormalJoinIsFixed(input, p);
      }
    case Join(left, right, _) =>
      NormalIsFixed(left);
      NormalIsFixed(right);
    case Project(input, _) => NormalIsFixed(input);
    case Sort(input, _) => NormalIsFixed(input);
    case Aggregate(input, _, _) => NormalIsFixed(input);
    case Limit(input, _) => NormalIsFixed(input);
  }

  /** Rewriting twice is rewriting once, and the fixed points are exactly the normal plans. */
  lemma PushDownIdempotent(plan: Plan)
    ensures PushDown(PushDown(plan)) == PushDown(plan)
    ensures PushDown(plan) == plan <==> Normal(plan)
  {
    PushDownIsNormal(plan);
    NormalIsFixed(PushDown(plan));
    if Normal(plan) {
      NormalIsFixed(plan);
    }
  }

  // ---------------------------------------------------------------- conservation

  /** Every conjunct of every filter of the plan. */
  function FilterConjuncts(plan: Plan): multiset<Conjunct> {
    match plan
    case Scan(_, _) => multiset{}
    case Filter(input, p) => FilterConjuncts(input) + multiset(SplitAnd(p))
    case Join(left, right, _) => FilterConjuncts(left) + FilterConjuncts(right)
    case Project(input, _) => FilterConjuncts(input)
    case Sort(input, _) => FilterConjuncts(input)
    case Aggregate(input, _, _) => FilterConjuncts(input)
    case Limit(input, _) => FilterConjuncts(input)
  }

  lemma {:induction false} PickPartitions(cs: seq<Conjunct>, lt: seq<string>, rt: seq<string>)
    ensures multiset(cs) == multiset(Pick(cs, LeftOnly, lt, rt)) + multiset(Pick(cs, RightOnly, lt, rt)) +
                            multiset(Pick(cs, Neither, lt, rt))
  {
    if cs != [] {
      PickPartitions(cs[1..], lt, rt);
      assert cs == [cs[0]] + cs[1..];
    }
  }

  /** No conjunct is lost, invented or duplicated. */
  lemma {:induction false} PushDownConserves(plan: Plan)
    ensures FilterConjuncts(PushDown(plan)) == FilterConjuncts(plan)
    decreases Weight(plan), 1, plan
  {
    match plan
    case Scan(_, _) =>
    case Filter(input, p) =>
      PushDownConserves(input);
      PushIntoConserves(PushDown(input), p);
    case Join(left, right, _) =>
      PushDownConserves(left);
      PushDownConserves(right);
    case Project(input, _) => PushDownConserves(input);
    case Sort(input, _) => PushDownConserves(input);
    case Aggregate(input, _, _) => PushDownConserves(input);
    case Limit(input, _) => PushDownConserves(input);
  }

  lemma {:induction false} PushIntoConserves(input: Plan, p: Predicate)
    ensures FilterConjuncts(PushFilterInto(input, p)) == FilterConjuncts(input) + multiset(SplitAnd(p))
    decreases Weight(input), 0, input
  {
    match input
    case Join(left, right, c) =>
      var lt, rt, cs := TableNames(left), TableNames(right), SplitAnd(p);
      var onLeft, onRight := Pick(cs, LeftOnly, lt, rt), Pick(cs, RightOnly, lt, rt);
      PushSideConserves(left, onLeft, p, LeftOnly, lt, rt);
      PushSideConserves(right, onRight, p, RightOnly, lt, rt);
      JoinConserves(Join(PushSide(left, onLeft), PushSide(right, onRight), c), p, lt, rt);
      PickPartitions(cs, lt, rt);
    case Filter(inner, q) =>
      PushIntoConserves(inner, q + ["and"] + p);
      SplitMerged([], q, p);
    case _ =>
  }

  lemma JoinConserves(join: Plan, p: Predicate, lt: seq<string>, rt: seq<string>)
    requires join.Join?
    ensures var top := Pick(SplitAnd(p), Neither, lt, rt);
            FilterConjuncts(if top == [] then join else Filter(join, JoinAnd(top))) ==
            FilterConjuncts(join) + multiset(top)
  {
    SplitIsProper([], p);
    PickSubset(SplitAnd(p), Neither, lt, rt);
    SplitJoined(Pick(SplitAnd(p), Neither, lt, rt));
  }

  lemma {:induction false} PushSideConserves(side: Plan, cs: seq<Conjunct>, p: Predicate,
                                             which: Side, lt: seq<string>, rt: seq<string>)
    requires cs == Pick(SplitAnd(p), which, lt, rt)
    ensures FilterConjuncts(PushSide(side, cs)) == FilterConjuncts(side) + multiset(cs)
    decreases Weight(side), 2, side
  {
    PushDownConserves(side);
    if cs != [] {
      PushIntoConserves(PushDown(side), JoinAnd(cs));
      SplitIsProper([], p);
      PickSubset(SplitAnd(p), which, lt, rt);
      SplitJoined(cs);
    }
  }

  // ---------------------------------------------------------------- where it breaks

  /** Merging two filters whose inner predicate contains `or` admits rows the plan rejected:
      `and` binds tighter than the `or` it is glued to. */
  lemma OrBreaksMeaning() returns (s: Semantics, plan: Plan)
    ensures Namespaced(s) && !OrFreePlan(plan)
    ensures Rows(s, PushDown(plan)) != Rows(s, plan)
  {
    s := Semantics((t, p) => [[]], (c, row) => c == ["a"], (c, l, r) => true,
                   (cols, rows) => rows, (col, rows) => rows, (k, aggs, rows) => rows, (n, rows) => rows);
    plan := Filter(Filter(Scan("t", None), ["a", "or", "b"]), ["c"]);
    assert IsOr(["a", "or", "b"][1]);
    OrAdmits(s, []);
  }

  lemma OrAdmits(s: Semantics, row: Row)
    requires s.rows("t", None) == [row]
    requires s.holds(["a"], row) && !s.holds(["c"], row)
    ensures var plan := Filter(Filter(Scan("t", None), ["a", "or", "b"]), ["c"]);
            Rows(s, plan) == [] && Rows(s, PushDown(plan)) == [row]
  {
    var scan, inner, merged := Scan("t", None), ["a", "or", "b"], ["a", "or", "b", "and", "c"];
    MergedOverScan(inner, ["c"]);
    assert inner + ["and"] + ["c"] == merged;
    SingleWord(s, "a", row);
    SingleWord(s, "c", row);
    OrHead("a", ["b", "and", "c"]);
    assert ["a", "or"] + ["b", "and", "c"] == merged;
    assert Holds(s, merged, row);
    FilterOne(s, merged, row);
    FilterOut(s, inner, ["c"], [row]);
    assert Rows(s, Filter(scan, merged)) == FilterRows(s, merged, [row]);
    assert Rows(s, Filter(Filter(scan, inner), ["c"])) == FilterRows(s, ["c"], FilterRows(s, inner, [row])) by {
      assert Rows(s, Filter(scan, inner)) == FilterRows(s, inner, [row]);
    }
  }

  lemma MergedOverScan(inner: Predicate, outer: Predicate)
    ensures var scan := Scan("t", None);
            PushDown(Filter(Filter(scan, inner), outer)) == Filter(scan, inner + ["and"] + outer)
  {
    var scan := Scan("t", None);
    assert PushDown(scan) == scan;
    assert PushDown(Filter(scan, inner)) == PushFilterInto(scan, inner) == Filter(scan, inner);
    assert PushFilterInto(Filter(scan, inner), outer) == PushFilterInto(scan, inner + ["and"] + outer);
    assert PushFilterInto(scan, inner + ["and"] + outer) == Filter(scan, inner + ["and"] + outer);
  }

  lemma FilterOne(s: Semantics, p: Predicate, row: Row)
    requires Holds(s, p, row)
    ensures FilterRows(s, p, [row]) == [row]
  {
    assert [row][1..] == [];
  }

  lemma SingleWord(s: Semantics, w: Word, row: Row)
    requires !IsAnd(w) && !IsOr(w)
    ensures SplitAnd([w]) == [[w]] && AllHold(s, [[w]], row) == s.holds([w], row)
    ensures Holds(s, [w], row) <==> s.holds([w], row)
  {
    SplitAndFreeRun([], [w]);
    assert [] + [w] == [w];
    OrFreeHolds(s, [w], row);
    assert [[w]][1..] == [];
  }

  lemma OrHead(w: Word, rest: Predicate)
    requires !IsOr(w)
    ensures [w] in SplitOrFrom([], [w, "or"] + rest)
  {
    var p := [w, "or"] + rest;
    assert p[1..] == ["or"] + rest;
    assert [] + [p[0]] == [w];
    assert SplitOrFrom([], p) == SplitOrFrom([w], p[1..]);
  }

  lemma {:induction false} FilterOut(s: Semantics, q: Predicate, p: Predicate, rows: seq<Row>)
    requires forall row :: row in rows ==> !Holds(s, p, row)
    ensures FilterRows(s, p, FilterRows(s, q, rows)) == []
  {
    if rows != [] {
      assert rows[0] in rows;
      FilterOut(s, q, p, rows[1..]);
      var rest := FilterRows(s, q, rows[1..]);
      assert ([rows[0]] + rest)[1..] == rest;
    }
  }
}
