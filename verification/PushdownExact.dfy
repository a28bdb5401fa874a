/** When the rewrite keeps the meaning of a tree of filters and joins: exactly when the filters of the
    rewritten tree, taken together, follow from those of the tree and the other way round. */
module PushdownExact {
  import opened Wrappers
  import opened PlanModel
  import opened Pushdown
  import opened PushdownProofs
  import opened PredicateLogic
  import opened PushdownMerge
  import opened PushdownMeaning

  // ---------------------------------------------------------------- one tree of filters and joins

  predicate Opaque(plan: Plan) { !plan.Filter? && !plan.Join? }

  /** Below the filters and joins at the top there are no more filters. */
  predicate OneTree(plan: Plan) {
    match plan
    case Filter(input, _) => OneTree(input)
    case Join(left, right, _) => OneTree(left) && OneTree(right)
    case _ => Skeleton(plan) == plan
  }

  /** The filters of the tree, those of the inputs first. */
  function Filters(plan: Plan): seq<Predicate> {
    match plan
    case Filter(input, p) => Filters(input) + [p]
    case Join(left, right, _) => Filters(left) + Filters(right)
    case _ => []
  }

  /** No filter below a join names a table of the other input. */
  predicate Scoped(plan: Plan) {
    match plan
    case Filter(input, _) => Scoped(input)
    case Join(left, right, _) =>
      && Scoped(left) && Scoped(right)
      && AllClear(Filters(left), TableNames(right)) && AllClear(Filters(right), TableNames(left))
    case _ => true
  }

  /** The rows of a scoped tree are those of its skeleton that meet all of its filters. */
  lemma {:induction false} TreeRows(s: Semantics, plan: Plan)
    requires Namespaced(s) && OneTree(plan) && Scoped(plan)
    ensures Rows(s, plan) == Kept(s, Filters(plan), Rows(s, Skeleton(plan)))
  {
    match plan
    case Filter(input, p) =>
      TreeRows(s, input);
      FilterIsKept(s, p, Rows(s, input));
      KeptTwice(s, Filters(input), [p], Rows(s, Skeleton(input)));
    case Join(left, right, c) =>
      TreeRows(s, left);
      TreeRows(s, right);
      JoinedTreeRows(s, left, right, c);
    case _ => KeptNone(s, Rows(s, plan));
  }

  lemma JoinedTreeRows(s: Semantics, left: Plan, right: Plan, c: Predicate)
    requires Namespaced(s) && Scoped(Join(left, right, c))
    ensures var l, r := Rows(s, Skeleton(left)), Rows(s, Skeleton(right));
            JoinRows(s, c, Kept(s, Filters(left), l), Kept(s, Filters(right), r)) ==
            Kept(s, Filters(left) + Filters(right), JoinRows(s, c, l, r))
  {
    var lt, rt, l, r := TableNames(left), TableNames(right), Rows(s, Skeleton(left)), Rows(s, Skeleton(right));
    RowsWithin(s, Skeleton(left), []);
    RowsWithin(s, Skeleton(right), []);
    TablesOfSkeleton(left, []);
    TablesOfSkeleton(right, []);
    KeptJoin(s, Filters(left), Filters(right), [], c, l, r, lt, rt);
    assert Filters(left) + Filters(right) + [] == Filters(left) + Filters(right);
    KeptNone(s, JoinRows(s, c, Kept(s, Filters(left), l), Kept(s, Filters(right), r)));
  }

  // ---------------------------------------------------------------- the rewrite stays scoped

  lemma MergedClear(q: Predicate, p: Predicate, ts: seq<string>)
    requires Clear(q, ts) && Clear(p, ts)
    ensures Clear(Merged(q, p), ts)
  {
    assert IsAnd("and");
  }

  lemma PickedClear(p: Predicate, side: Side, lt: seq<string>, rt: seq<string>, ts: seq<string>)
    requires Clear(p, ts)
    ensures Clear(JoinAnd(Pick(SplitAnd(p), side, lt, rt)), ts)
  {
    var cs := Pick(SplitAnd(p), side, lt, rt);
    PickSubset(SplitAnd(p), side, lt, rt);
    forall c | c in cs ensures !MentionsAny(c, ts) {
      WordsOfConjunct([], p, c);
      NamesByWord(c, ts);
    }
    JoinedClear(cs, ts);
  }

  /** Rewriting brings no new table names into the filters. */
  lemma {:induction false} PushDownClear(plan: Plan, ts: seq<string>)
    requires AllClear(Filters(plan), ts)
    ensures AllClear(Filters(PushDown(plan)), ts)
    decreases Weight(plan), 1, plan
  {
    match plan
    case Filter(input, p) =>
      assert p in Filters(plan);
      PushDownClear(input, ts);
      PushIntoClear(PushDown(input), p, ts);
    case Join(left, right, _) =>
      PushDownClear(left, ts);
      PushDownClear(right, ts);
    case _ =>
  }

  lemma {:induction false} PushIntoClear(input: Plan, p: Predicate, ts: seq<string>)
    requires AllClear(Filters(input), ts) && Clear(p, ts)
    ensures AllClear(Filters(PushFilterInto(input, p)), ts)
    decreases Weight(input), 0, input
  {
    match input
    case Join(left, right, c) =>
      var lt, rt, cs := TableNames(left), TableNames(right), SplitAnd(p);
      PickedClear(p, LeftOnly, lt, rt, ts);
      PickedClear(p, RightOnly, lt, rt, ts);
      PickedClear(p, Neither, lt, rt, ts);
      PushSideClear(left, Pick(cs, LeftOnly, lt, rt), ts);
      PushSideClear(right, Pick(cs, RightOnly, lt, rt), ts);
    case Filter(inner, q) =>
      assert q in Filters(input);
      MergedClear(q, p, ts);
      PushIntoClear(inner, Merged(q, p), ts);
    case _ =>
  }

  lemma {:induction false} PushSideClear(side: Plan, cs: seq<Conjunct>, ts: seq<string>)
    requires AllClear(Filters(side), ts) && Clear(JoinAnd(cs), ts)
    ensures AllClear(Filters(PushSide(side, cs)), ts)
    decreases Weight(side), 2, side
  {
    PushDownClear(side, ts);
    if cs != [] {
      PushIntoClear(PushDown(side), JoinAnd(cs), ts);
    }
  }

  lemma {:induction false} OneTreeBySkeleton(plan: Plan)
    requires OneTree(plan)
    ensures OneTree(PushDown(plan))
    decreases Weight(plan), 1, plan
  {
    match plan
    case Filter(input, p) =>
      OneTreeBySkeleton(input);
      PushIntoOneTree(PushDown(input), p);
    case Join(left, right, _) =>
      OneTreeBySkeleton(left);
      OneTreeBySkeleton(right);
    case _ => FilterlessIsFixed(plan);
  }

  lemma {:induction false} FilterlessIsFixed(plan: Plan)
    requires Skeleton(plan) == plan
    ensures PushDown(plan) == plan && Filters(plan) == []
  {
    match plan
    case Filter(input, _) => Bigger(input);
    case Join(left, right, _) =>
      FilterlessIsFixed(left);
      FilterlessIsFixed(right);
    case Project(input, _) => FilterlessIsFixed(input);
    case Sort(input, _) => FilterlessIsFixed(input);
    case Aggregate(input, _, _) => FilterlessIsFixed(input);
    case Limit(input, _) => FilterlessIsFixed(input);
    case Scan(_, _) =>
  }

  /** A skeleton is no filter. */
  lemma {:induction false} Bigger(plan: Plan)
    ensures !Skeleton(plan).Filter?
  {
    if plan.Filter? {
      Bigger(plan.input);
    }
  }

  lemma {:induction false} PushIntoOneTree(input: Plan, p: Predicate)
    requires OneTree(input)
    ensures OneTree(PushFilterInto(input, p))
    decreases Weight(input), 0, input
  {
    match input
    case Join(left, right, c) =>
      var lt, rt, cs := TableNames(left), TableNames(right), SplitAnd(p);
      PushSideOneTree(left, Pick(cs, LeftOnly, lt, rt));
      PushSideOneTree(right, Pick(cs, RightOnly, lt, rt));
    case Filter(inner, q) => PushIntoOneTree(inner, Merged(q, p));
    case _ =>
  }

  lemma {:induction false} PushSideOneTree(side: Plan, cs: seq<Conjunct>)
    requires OneTree(side)
    ensures OneTree(PushSide(side, cs))
    decreases Weight(side), 2, side
  {
    OneTreeBySkeleton(side);
    if cs != [] {
      PushIntoOneTree(PushDown(side), JoinAnd(cs));
    }
  }

  lemma {:induction false} PushDownScoped(plan: Plan)
    requires Scoped(plan)
    ensures Scoped(PushDown(plan))
    decreases Weight(plan), 1, plan
  {
    match plan
    case Filter(input, p) =>
      PushDownScoped(input);
      PushIntoScoped(PushDown(input), p);
    case Join(left, right, _) =>
      PushDownScoped(left);
      PushDownScoped(right);
      PushDownClear(left, TableNames(right));
      PushDownClear(right, TableNames(left));
      SameTables(PushDown(left), left);
      SameTables(PushDown(right), right);
    case _ =>
  }

  lemma {:induction false} PushIntoScoped(input: Plan, p: Predicate)
    requires Scoped(input)
    ensures Scoped(PushFilterInto(input, p))
    decreases Weight(input), 0, input
  {
    match input
    case Join(left, right, c) =>
      var lt, rt, cs := TableNames(left), TableNames(right), SplitAnd(p);
      var onLeft, onRight := Pick(cs, LeftOnly, lt, rt), Pick(cs, RightOnly, lt, rt);
      PushSideScoped(left, onLeft);
      PushSideScoped(right, onRight);
      PickSubset(cs, LeftOnly, lt, rt);
      PickSubset(cs, RightOnly, lt, rt);
      JoinedClear(onLeft, rt);
      JoinedClear(onRight, lt);
      PushSideClear(left, onLeft, rt);
      PushSideClear(right, onRight, lt);
      SameTables(PushSide(left, onLeft), left);
      SameTables(PushSide(right, onRight), right);
    case Filter(inner, q) => PushIntoScoped(inner, Merged(q, p));
    case _ =>
  }

  lemma {:induction false} PushSideScoped(side: Plan, cs: seq<Conjunct>)
    requires Scoped(side)
    ensures Scoped(PushSide(side, cs))
    decreases Weight(side), 2, side
  {
    PushDownScoped(side);
    if cs != [] {
      PushIntoScoped(PushDown(side), JoinAnd(cs));
    }
  }

  // ---------------------------------------------------------------- the exact condition

  ghost predicate KeepsMeaning(plan: Plan) {
    forall s: Semantics :: Namespaced(s) ==> Rows(s, PushDown(plan)) == Rows(s, plan)
  }

  /** In the deciding meaning a tree without filters has just the empty row. */
  lemma {:induction false} DecidingRows(known: set<Conjunct>, plan: Plan)
    requires Skeleton(plan) == plan
    ensures Rows(Deciding(known), plan) == [[]]
  {
    var s := Deciding(known);
    match plan
    case Filter(input, _) => Bigger(input);
    case Join(left, right, c) =>
      DecidingRows(known, left);
      DecidingRows(known, right);
      var row: Row := [];
      assert [row][1..] == [] && row + row == row;
      assert MatchRow(s, c, row, [row]) == [row];
      assert JoinRows(s, c, [row], [row]) == [row];
    case _ =>
  }

  lemma {:induction false} SkeletonTwice(plan: Plan)
    ensures Skeleton(Skeleton(plan)) == Skeleton(plan)
  {
    match plan
    case Scan(_, _) =>
    case Filter(input, _) => SkeletonTwice(input);
    case Join(left, right, _) =>
      SkeletonTwice(left);
      SkeletonTwice(right);
    case Project(input, _) => SkeletonTwice(input);
    case Sort(input, _) => SkeletonTwice(input);
    case Aggregate(input, _, _) => SkeletonTwice(input);
    case Limit(input, _) => SkeletonTwice(input);
  }

  lemma DecidingTree(known: set<Conjunct>, plan: Plan)
    requires OneTree(plan) && Scoped(plan)
    ensures Rows(Deciding(known), plan) == if AdmitsAll(known, Filters(plan)) then [[]] else []
  {
    var s := Deciding(known);
    DecidingIsNamespaced(known);
    TreeRows(s, plan);
    SkeletonTwice(plan);
    DecidingRows(known, Skeleton(plan));
    DecidingMeets(known, Filters(plan), []);
    var row: Row := [];
    assert [row][1..] == [];
  }

  lemma Distinguished(plan: Plan, ps: seq<Predicate>, qs: seq<Predicate>)
    requires OneTree(plan) && Scoped(plan) && OneTree(PushDown(plan)) && Scoped(PushDown(plan)) && !Entails(ps, qs)
    requires {ps, qs} == {Filters(plan), Filters(PushDown(plan))}
    ensures !KeepsMeaning(plan)
  {
    var known := Refuted({}, ps, qs);
    DecidingTree(known, plan);
    DecidingTree(known, PushDown(plan));
    DecidingIsNamespaced(known);
    assert ps in {Filters(plan), Filters(PushDown(plan))} && qs in {Filters(plan), Filters(PushDown(plan))};
    assert Rows(Deciding(known), PushDown(plan)) != Rows(Deciding(known), plan);
  }

  /** Rewriting a scoped tree keeps its rows under every meaning exactly if the filters of the result
      and of the tree say the same. */
  lemma TreeExact(plan: Plan)
    requires OneTree(plan) && Scoped(plan)
    ensures KeepsMeaning(plan) <==> Same(Filters(plan), Filters(PushDown(plan)))
  {
    OneTreeBySkeleton(plan);
    PushDownScoped(plan);
    var before, after := Filters(plan), Filters(PushDown(plan));
    if Same(before, after) {
      forall s: Semantics | Namespaced(s) ensures Rows(s, PushDown(plan)) == Rows(s, plan) {
        TreeRows(s, plan);
        TreeRows(s, PushDown(plan));
        KeptSame(s, before, after, Rows(s, Skeleton(plan)));
      }
    } else if !Entails(before, after) {
      Distinguished(plan, before, after);
    } else {
      Distinguished(plan, after, before);
    }
  }

  // ---------------------------------------------------------------- the two steps of the rewrite

  /** Two filters over a plan without filters keep their meaning exactly if they can be merged. */
  lemma TwoFiltersExact(x: Plan, q: Predicate, p: Predicate)
    requires Opaque(x) && Skeleton(x) == x
    ensures KeepsMeaning(Filter(Filter(x, q), p)) <==> Mergeable(q, p)
  {
    var plan := Filter(Filter(x, q), p);
    FilterlessIsFixed(x);
    assert PushDown(Filter(x, q)) == PushFilterInto(x, q) == Filter(x, q);
    assert PushDown(plan) == PushFilterInto(Filter(x, q), p) == PushFilterInto(x, Merged(q, p)) == Filter(x, Merged(q, p));
    assert Filters(plan) == [q, p];
    assert Filters(PushDown(plan)) == [Merged(q, p)];
    TreeExact(plan);
    MergeExact(q, p);
  }

  /** A single filter over a plan without filters is always right. */
  lemma OneFilterKeeps(x: Plan, p: Predicate)
    requires Opaque(x) && Skeleton(x) == x
    ensures KeepsMeaning(Filter(x, p))
  {
    FilterlessIsFixed(x);
    assert PushDown(Filter(x, p)) == PushFilterInto(x, p) == Filter(x, p);
  }

  /** A filter over a join of plans without filters keeps its meaning exactly if its parts for the
      left input, the right input and the joined rows say together what it says. */
  lemma SplitExact(l: Plan, r: Plan, c: Predicate, p: Predicate)
    requires Opaque(l) && Opaque(r) && Skeleton(l) == l && Skeleton(r) == r
    ensures KeepsMeaning(Filter(Join(l, r, c), p)) <==> Same([p], Groups(p, TableNames(l), TableNames(r)))
  {
    var plan, lt, rt, cs := Filter(Join(l, r, c), p), TableNames(l), TableNames(r), SplitAnd(p);
    FilterlessIsFixed(l);
    FilterlessIsFixed(r);
    assert PushDown(plan) == PushFilterInto(Join(l, r, c), p);
    SideFilters(l, Pick(cs, LeftOnly, lt, rt));
    SideFilters(r, Pick(cs, RightOnly, lt, rt));
    assert Filters(plan) == [p];
    assert Filters(PushDown(plan)) == Groups(p, lt, rt);
    TreeExact(plan);
  }

  lemma SideFilters(x: Plan, cs: seq<Conjunct>)
    requires Opaque(x) && Skeleton(x) == x
    ensures Filters(PushSide(x, cs)) == Group(cs)
  {
    FilterlessIsFixed(x);
  }

  /** A predicate without `and` goes to one place as a whole, so it is never torn apart. */
  lemma UnsplitKeeps(p: Predicate, lt: seq<string>, rt: seq<string>)
    requires AndFree(p)
    ensures Same([p], Groups(p, lt, rt))
  {
    SplitAndFreeRun([], p);
    assert [] + p == p;
    if p == [] {
      assert Groups(p, lt, rt) == [];
      EntailsExact([p], []);
      assert Disjuncts(p) == [[]] && Terms([]) == {};
      assert [] in Disjuncts(p);
      assert AdmitsAll({}, [p]);
    } else {
      assert SplitAnd(p) == [p];
      PickOne(p, LeftOnly, lt, rt);
      PickOne(p, RightOnly, lt, rt);
      PickOne(p, Neither, lt, rt);
      assert Groups(p, lt, rt) == [p];
      EntailsItself([p]);
    }
  }

  lemma PickOne(c: Conjunct, side: Side, lt: seq<string>, rt: seq<string>)
    ensures Pick([c], side, lt, rt) == if ConjunctSide(c, lt, rt) == side then [c] else []
  {
    assert [c][1..] == [];
  }
}
