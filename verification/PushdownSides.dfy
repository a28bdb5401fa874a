/** Where each conjunct of a filter over a join ends up. */
module PushdownSides {
  import opened Wrappers
  import opened PlanModel
  import opened Pushdown
  import opened PushdownProofs
  import opened PlanWords

  predicate OnlyLeft(c: Conjunct, lt: seq<string>, rt: seq<string>) { MentionsAny(c, lt) && !MentionsAny(c, rt) }

  predicate OnlyRight(c: Conjunct, lt: seq<string>, rt: seq<string>) { MentionsAny(c, rt) && !MentionsAny(c, lt) }

  predicate Belongs(c: Conjunct, side: Side, lt: seq<string>, rt: seq<string>) {
    match side
    case LeftOnly => OnlyLeft(c, lt, rt)
    case RightOnly => OnlyRight(c, lt, rt)
    case Neither => MentionsAny(c, lt) <==> MentionsAny(c, rt)
  }

  function Times(cs: seq<Conjunct>, c: Conjunct): nat { multiset(cs)[c] }

  /** A class takes the conjuncts that belong to it, each as often as it occurs. */
  lemma {:induction false} PickCounts(cs: seq<Conjunct>, side: Side, lt: seq<string>, rt: seq<string>, c: Conjunct)
    ensures Times(Pick(cs, side, lt, rt), c) == if Belongs(c, side, lt, rt) then Times(cs, c) else 0
  {
    if cs != [] {
      PickCounts(cs[1..], side, lt, rt, c);
      assert cs == [cs[0]] + cs[1..];
    }
  }

  /** A class keeps the order of its conjuncts. */
  lemma {:induction false} PickConcat(a: seq<Conjunct>, b: seq<Conjunct>, side: Side, lt: seq<string>, rt: seq<string>)
    ensures Pick(a + b, side, lt, rt) == Pick(a, side, lt, rt) + Pick(b, side, lt, rt)
  {
    if a == [] {
      assert a + b == b;
    } else {
      PickConcat(a[1..], b, side, lt, rt);
      assert (a + b)[1..] == a[1..] + b;
    }
  }

  /** The plan below the filter that is left over a join, if any is. */
  function Below(plan: Plan): Plan { if plan.Filter? then plan.input else plan }

  function Above(plan: Plan): seq<Conjunct> { if plan.Filter? then SplitAnd(plan.pred) else [] }

  /** The filters inside `after` are those inside `before` and, as often as `cs` has them, the
      conjuncts of `cs` that belong to the side. */
  ghost predicate Gains(before: Plan, after: Plan, cs: seq<Conjunct>, side: Side, lt: seq<string>, rt: seq<string>) {
    forall c :: FilterConjuncts(after)[c] ==
      FilterConjuncts(before)[c] + if Belongs(c, side, lt, rt) then Times(cs, c) else 0
  }

  ghost predicate Stay(top: seq<Conjunct>, cs: seq<Conjunct>, lt: seq<string>, rt: seq<string>) {
    forall c :: Times(top, c) == if Belongs(c, Neither, lt, rt) then Times(cs, c) else 0
  }

  lemma SideGains(side: Plan, p: Predicate, which: Side, lt: seq<string>, rt: seq<string>)
    ensures Gains(side, PushSide(side, Pick(SplitAnd(p), which, lt, rt)), SplitAnd(p), which, lt, rt)
  {
    var picked := Pick(SplitAnd(p), which, lt, rt);
    PushSideConserves(side, picked, p, which, lt, rt);
    forall c ensures Times(picked, c) == if Belongs(c, which, lt, rt) then Times(SplitAnd(p), c) else 0 {
      PickCounts(SplitAnd(p), which, lt, rt, c);
    }
  }

  lemma TopStays(p: Predicate, lt: seq<string>, rt: seq<string>)
    ensures var top := Pick(SplitAnd(p), Neither, lt, rt);
            Stay(top, SplitAnd(p), lt, rt) && SplitAnd(JoinAnd(top)) == top
  {
    SplitIsProper([], p);
    PickSubset(SplitAnd(p), Neither, lt, rt);
    SplitJoined(Pick(SplitAnd(p), Neither, lt, rt));
    forall c {
      PickCounts(SplitAnd(p), Neither, lt, rt, c);
    }
  }

  /** Pushing a filter into a join leaves a join of the same inputs but for their filters. A conjunct
      that names tables of one side only is added to the filters inside that side, as often as the
      filter had it, and to nothing else; all others, and only they, stay over the join. */
  lemma PushedToItsSide(left: Plan, right: Plan, condition: Predicate, p: Predicate)
    ensures var lt, rt := TableNames(left), TableNames(right);
            var r := PushFilterInto(Join(left, right, condition), p);
            var join := Below(r);
            && join.Join? && join.condition == condition
            && Skeleton(join.left) == Skeleton(left) && Skeleton(join.right) == Skeleton(right)
            && Gains(left, join.left, SplitAnd(p), LeftOnly, lt, rt)
            && Gains(right, join.right, SplitAnd(p), RightOnly, lt, rt)
            && Stay(Above(r), SplitAnd(p), lt, rt)
  {
    var lt, rt := TableNames(left), TableNames(right);
    SideGains(left, p, LeftOnly, lt, rt);
    SideGains(right, p, RightOnly, lt, rt);
    TopStays(p, lt, rt);
  }

  /** A filter over the join of two tables that names columns of the first one only becomes a filter
      of that table. */
  lemma FiltersItsTable(t: string, u: string, condition: Predicate, p: Predicate)
    requires AndFree(p) && Mentions(p, t) && !Mentions(p, u)
    ensures var left, right := Scan(t, None), Scan(u, None);
            && PushDown(Filter(Join(left, right, condition), p)) == Join(Filter(left, p), right, condition)
            && PushDown(Filter(Join(right, left, condition), p)) == Join(right, Filter(left, p), condition)
  {
    var left, right := Scan(t, None), Scan(u, None);
    assert TableNames(left) == [t] && TableNames(right) == [u];
    assert p != [];
    SplitAndFreeRun([], p);
    assert [] + p == p && SplitAnd(p) == [p];
    OneConjunct(left, right, condition, p);
    OneConjunct(right, left, condition, p);
  }

  lemma OneConjunct(l: Plan, r: Plan, condition: Predicate, p: Predicate)
    requires l.Scan? && r.Scan? && SplitAnd(p) == [p]
    ensures var plan, lt, rt := PushDown(Filter(Join(l, r, condition), p)), TableNames(l), TableNames(r);
            && (OnlyLeft(p, lt, rt) ==> plan == Join(Filter(l, p), r, condition))
            && (OnlyRight(p, lt, rt) ==> plan == Join(l, Filter(r, p), condition))
  {
    var lt, rt := TableNames(l), TableNames(r);
    assert [p][1..] == [];
    assert PushDown(l) == l && PushDown(r) == r && PushDown(Join(l, r, condition)) == Join(l, r, condition);
    assert PushDown(Filter(Join(l, r, condition), p)) == PushFilterInto(Join(l, r, condition), p);
    assert PushFilterInto(l, p) == Filter(l, p) && PushFilterInto(r, p) == Filter(r, p);
    forall side ensures Pick([p], side, lt, rt) == if ConjunctSide(p, lt, rt) == side then [p] else [] {
    }
  }

  const ADULT: Predicate := ["users.age", ">", "18"]

  /** A filter on the age of users moves from the join with orders to the users. */
  lemma UsersByAge(condition: Predicate)
    ensures var users, orders := Scan("users", None), Scan("orders", None);
            PushDown(Filter(Join(users, orders, condition), ADULT)) == Join(Filter(users, ADULT), orders, condition)
  {
    NamesUsers();
    NamesNoOrders();
    FiltersItsTable("users", "orders", condition, ADULT);
  }

  lemma NamesUsers()
    ensures Mentions(ADULT, "users")
  {
    var w := "users.age";
    assert w[0..9] == w && w in ADULT && TokenAt(w, 0, 9) && NamedBy(w, "users");
    MentionsExact(ADULT, "users");
  }

  lemma NamesNoOrders()
    ensures !Mentions(ADULT, "orders")
  {
    var t := "orders";
    assert t[0] == 'o';
    forall w | w in ADULT ensures 'o' !in w {
      assert w == ADULT[0] || w == ADULT[1] || w == ADULT[2];
    }
    Unnamed(ADULT, t);
  }

  lemma Unnamed(c: Conjunct, t: string)
    requires t != "" && t[0] == 'o' && forall w :: w in c ==> 'o' !in w
    ensures !Mentions(c, t)
  {
    forall w, i: nat, j: nat | w in c && TokenAt(w, i, j) ensures !NamedBy(w[i..j], t) {
      StartsWithO(w, i, j, t);
    }
    MentionsExact(c, t);
  }

  lemma StartsWithO(w: Word, i: nat, j: nat, t: string)
    requires TokenAt(w, i, j) && 'o' !in w && t != "" && t[0] == 'o'
    ensures !NamedBy(w[i..j], t)
  {
    assert w[i..j][0] == w[i];
  }
}
