/** Filter pushdown keeps what a plan means, for all plans whose filters it merges and splits safely. */
module PushdownMeaning {
  import opened Wrappers
  import opened PlanModel
  import opened Pushdown
  import opened PushdownProofs
  import opened PredicateLogic
  import opened PushdownMerge

  // ---------------------------------------------------------------- filtering rows

  /** The rows that meet all predicates. */
  ghost function Kept(s: Semantics, ps: seq<Predicate>, rows: seq<Row>): seq<Row> {
    if rows == [] then []
    else if Meets(s, ps, rows[0]) then [rows[0]] + Kept(s, ps, rows[1..])
    else Kept(s, ps, rows[1..])
  }

  lemma KeptCons(s: Semantics, ps: seq<Predicate>, row: Row, rest: seq<Row>)
    ensures Kept(s, ps, [row] + rest) == if Meets(s, ps, row) then [row] + Kept(s, ps, rest) else Kept(s, ps, rest)
  {
    assert ([row] + rest)[1..] == rest;
  }

  lemma {:induction false} KeptConcat(s: Semantics, ps: seq<Predicate>, a: seq<Row>, b: seq<Row>)
    ensures Kept(s, ps, a + b) == Kept(s, ps, a) + Kept(s, ps, b)
  {
    if a == [] {
      assert a + b == b;
    } else {
      KeptConcat(s, ps, a[1..], b);
      assert (a + b)[1..] == a[1..] + b;
    }
  }

  lemma MeetsConcat(s: Semantics, ps: seq<Predicate>, qs: seq<Predicate>, row: Row)
    ensures Meets(s, ps + qs, row) <==> Meets(s, ps, row) && Meets(s, qs, row)
  {
    assert forall p :: p in ps + qs <==> p in ps || p in qs;
  }

  lemma {:induction false} KeptTwice(s: Semantics, ps: seq<Predicate>, qs: seq<Predicate>, rows: seq<Row>)
    ensures Kept(s, qs, Kept(s, ps, rows)) == Kept(s, ps + qs, rows)
  {
    if rows != [] {
      KeptTwice(s, ps, qs, rows[1..]);
      MeetsConcat(s, ps, qs, rows[0]);
      KeptCons(s, qs, rows[0], Kept(s, ps, rows[1..]));
    }
  }

  lemma {:induction false} KeptAlike(s: Semantics, ps: seq<Predicate>, qs: seq<Predicate>, rows: seq<Row>)
    requires forall row :: row in rows ==> (Meets(s, ps, row) <==> Meets(s, qs, row))
    ensures Kept(s, ps, rows) == Kept(s, qs, rows)
  {
    if rows != [] {
      assert rows[0] in rows;
      KeptAlike(s, ps, qs, rows[1..]);
    }
  }

  lemma KeptSame(s: Semantics, ps: seq<Predicate>, qs: seq<Predicate>, rows: seq<Row>)
    requires Same(ps, qs)
    ensures Kept(s, ps, rows) == Kept(s, qs, rows)
  {
    forall row | row in rows ensures Meets(s, ps, row) <==> Meets(s, qs, row) {
      SameMeets(s, ps, qs, row);
    }
    KeptAlike(s, ps, qs, rows);
  }

  lemma {:induction false} KeptNone(s: Semantics, rows: seq<Row>)
    ensures Kept(s, [], rows) == rows
  {
    if rows != [] {
      KeptNone(s, rows[1..]);
      assert [rows[0]] + rows[1..] == rows;
    }
  }

  lemma {:induction false} FilterIsKept(s: Semantics, p: Predicate, rows: seq<Row>)
    ensures FilterRows(s, p, rows) == Kept(s, [p], rows)
  {
    if rows != [] {
      FilterIsKept(s, p, rows[1..]);
      assert [p][0] == p;
    }
  }

  // ---------------------------------------------------------------- which tables a predicate names

  predicate WordNames(w: Word, tables: seq<string>) {
    exists token, t :: token in Tokens("", w) && t in tables && BeforeDot(token) == t
  }

  /** No word but `and` names one of the tables. */
  predicate Clear(p: Predicate, tables: seq<string>) {
    forall w :: w in p && !IsAnd(w) ==> !WordNames(w, tables)
  }

  predicate AllClear(ps: seq<Predicate>, tables: seq<string>) {
    forall p :: p in ps ==> Clear(p, tables)
  }

  lemma {:induction false} TokenOfWord(c: Conjunct, token: string)
    ensures token in ConjunctTokens(c) <==> exists w :: w in c && token in Tokens("", w)
  {
    if c != [] {
      TokenOfWord(c[1..], token);
      assert c == [c[0]] + c[1..];
      if w :| w in c && token in Tokens("", w) {
        if w != c[0] {
          assert w in c[1..];
        }
      }
      if token in ConjunctTokens(c) {
        if token in Tokens("", c[0]) {
          assert c[0] in c;
        } else {
          var w :| w in c[1..] && token in Tokens("", w);
          assert w in c;
        }
      }
    }
  }

  lemma NamesByWord(c: Conjunct, tables: seq<string>)
    ensures MentionsAny(c, tables) <==> exists w :: w in c && WordNames(w, tables)
  {
    if MentionsAny(c, tables) {
      var t :| t in tables && Mentions(c, t);
      var token :| token in ConjunctTokens(c) && BeforeDot(token) == t;
      TokenOfWord(c, token);
      var w :| w in c && token in Tokens("", w);
      assert WordNames(w, tables);
    }
    if w :| w in c && WordNames(w, tables) {
      var token, t :| token in Tokens("", w) && t in tables && BeforeDot(token) == t;
      TokenOfWord(c, token);
      assert Mentions(c, t);
    }
  }

  lemma {:induction false} WordsOfDisjunct(run: seq<Word>, p: Predicate, d: Predicate)
    requires d in SplitOrFrom(run, p)
    ensures forall w :: w in d ==> w in run || w in p
    decreases p
  {
    if p != [] {
      assert p == [p[0]] + p[1..];
      if IsOr(p[0]) {
        if d != run {
          WordsOfDisjunct([], p[1..], d);
        }
      } else {
        WordsOfDisjunct(run + [p[0]], p[1..], d);
      }
    }
  }

  lemma {:induction false} WordsOfConjunct(run: seq<Word>, p: Predicate, c: Conjunct)
    requires c in SplitAndFrom(run, p) && AndFree(run)
    ensures forall w :: w in c ==> (w in run || w in p) && !IsAnd(w)
    decreases p
  {
    if p != [] {
      assert p == [p[0]] + p[1..];
      if IsAnd(p[0]) {
        if c !in Run(run) {
          WordsOfConjunct([], p[1..], c);
        }
      } else {
        WordsOfConjunct(run + [p[0]], p[1..], c);
      }
    }
  }

  lemma {:induction false} WordsOfJoined(cs: seq<Conjunct>, w: Word)
    requires w in JoinAnd(cs) && !IsAnd(w)
    ensures exists c :: c in cs && w in c
  {
    assert IsAnd("and");
    if |cs| == 1 {
      assert w in cs[0];
    } else if |cs| > 1 && w !in cs[0] {
      WordsOfJoined(cs[1..], w);
      var c :| c in cs[1..] && w in c;
      assert c in cs;
    }
  }

  lemma JoinedClear(cs: seq<Conjunct>, tables: seq<string>)
    requires forall c :: c in cs ==> !MentionsAny(c, tables)
    ensures Clear(JoinAnd(cs), tables)
  {
    forall w | w in JoinAnd(cs) && !IsAnd(w) ensures !WordNames(w, tables) {
      WordsOfJoined(cs, w);
      var c :| c in cs && w in c;
      NamesByWord(c, tables);
    }
  }

  lemma TermClear(p: Predicate, tables: seq<string>, d: Predicate, c: Conjunct)
    requires Clear(p, tables) && d in Disjuncts(p) && c in SplitAnd(d)
    ensures !MentionsAny(c, tables)
  {
    WordsOfDisjunct([], p, d);
    WordsOfConjunct([], d, c);
    NamesByWord(c, tables);
  }

  /** A predicate that names no table of one side is decided by the other side of a joined row. */
  lemma HoldsOneSide(s: Semantics, p: Predicate, l: Row, r: Row, lt: seq<string>, rt: seq<string>)
    requires Namespaced(s) && RowWithin(l, lt) && RowWithin(r, rt)
    ensures Clear(p, rt) ==> (Holds(s, p, l + r) <==> Holds(s, p, l))
    ensures Clear(p, lt) ==> (Holds(s, p, l + r) <==> Holds(s, p, r))
  {
    forall d | d in Disjuncts(p)
      ensures Clear(p, rt) ==> (AllHold(s, SplitAnd(d), l + r) <==> AllHold(s, SplitAnd(d), l))
      ensures Clear(p, lt) ==> (AllHold(s, SplitAnd(d), l + r) <==> AllHold(s, SplitAnd(d), r))
    {
      AllHoldIsKnown(s, SplitAnd(d), l + r);
      AllHoldIsKnown(s, SplitAnd(d), l);
      AllHoldIsKnown(s, SplitAnd(d), r);
      forall c | c in SplitAnd(d)
        ensures Clear(p, rt) ==> s.holds(c, l + r) == s.holds(c, l)
        ensures Clear(p, lt) ==> s.holds(c, l + r) == s.holds(c, r)
      {
        HoldsOnSide(s, c, l, r, lt, rt);
        if Clear(p, rt) {
          TermClear(p, rt, d, c);
        }
        if Clear(p, lt) {
          TermClear(p, lt, d, c);
        }
      }
    }
  }

  // ---------------------------------------------------------------- filtering a join

  lemma MeetsOnSides(s: Semantics, onLeft: seq<Predicate>, onRight: seq<Predicate>, top: seq<Predicate>,
                     l: Row, r: Row, lt: seq<string>, rt: seq<string>)
    requires Namespaced(s) && RowWithin(l, lt) && RowWithin(r, rt) && AllClear(onLeft, rt) && AllClear(onRight, lt)
    ensures Meets(s, onLeft + onRight + top, l + r) <==> Meets(s, onLeft, l) && Meets(s, onRight, r) && Meets(s, top, l + r)
  {
    MeetsConcat(s, onLeft + onRight, top, l + r);
    MeetsConcat(s, onLeft, onRight, l + r);
    forall p | p in onLeft ensures Holds(s, p, l + r) <==> Holds(s, p, l) {
      HoldsOneSide(s, p, l, r, lt, rt);
    }
    forall p | p in onRight ensures Holds(s, p, l + r) <==> Holds(s, p, r) {
      HoldsOneSide(s, p, l, r, lt, rt);
    }
  }

  lemma MatchCons(s: Semantics, condition: Predicate, l: Row, r: Row, rest: seq<Row>)
    ensures MatchRow(s, condition, l, [r] + rest) ==
            if s.matches(condition, l, r) then [l + r] + MatchRow(s, condition, l, rest)
            else MatchRow(s, condition, l, rest)
  {
    assert ([r] + rest)[1..] == rest;
  }

  lemma JoinCons(s: Semantics, condition: Predicate, l: Row, rest: seq<Row>, right: seq<Row>)
    ensures JoinRows(s, condition, [l] + rest, right) ==
            MatchRow(s, condition, l, right) + JoinRows(s, condition, rest, right)
  {
    assert ([l] + rest)[1..] == rest;
  }

  lemma {:induction false} KeptMatches(s: Semantics, onLeft: seq<Predicate>, onRight: seq<Predicate>, top: seq<Predicate>,
                                       condition: Predicate, l: Row, right: seq<Row>, lt: seq<string>, rt: seq<string>)
    requires Namespaced(s) && RowWithin(l, lt) && Within(right, rt) && AllClear(onLeft, rt) && AllClear(onRight, lt)
    ensures Kept(s, onLeft + onRight + top, MatchRow(s, condition, l, right)) ==
            if Meets(s, onLeft, l) then Kept(s, top, MatchRow(s, condition, l, Kept(s, onRight, right))) else []
  {
    if right != [] {
      var r, rest := right[0], right[1..];
      assert r in right;
      KeptMatches(s, onLeft, onRight, top, condition, l, rest, lt, rt);
      MeetsOnSides(s, onLeft, onRight, top, l, r, lt, rt);
      MatchCons(s, condition, l, r, Kept(s, onRight, rest));
      if s.matches(condition, l, r) {
        KeptCons(s, onLeft + onRight + top, l + r, MatchRow(s, condition, l, rest));
        KeptCons(s, top, l + r, MatchRow(s, condition, l, Kept(s, onRight, rest)));
      }
    }
  }

  /** Filtering a join by predicates of one side each, and others, is filtering its inputs, joining,
      and filtering by the others. */
  lemma {:induction false} KeptJoin(s: Semantics, onLeft: seq<Predicate>, onRight: seq<Predicate>, top: seq<Predicate>,
                                    condition: Predicate, left: seq<Row>, right: seq<Row>, lt: seq<string>, rt: seq<string>)
    requires Namespaced(s) && Within(left, lt) && Within(right, rt) && AllClear(onLeft, rt) && AllClear(onRight, lt)
    ensures Kept(s, onLeft + onRight + top, JoinRows(s, condition, left, right)) ==
            Kept(s, top, JoinRows(s, condition, Kept(s, onLeft, left), Kept(s, onRight, right)))
  {
    if left != [] {
      var l, rest, kept, all := left[0], left[1..], Kept(s, onRight, right), onLeft + onRight + top;
      assert l in left;
      KeptJoin(s, onLeft, onRight, top, condition, rest, right, lt, rt);
      KeptMatches(s, onLeft, onRight, top, condition, l, right, lt, rt);
      KeptConcat(s, all, MatchRow(s, condition, l, right), JoinRows(s, condition, rest, right));
      if Meets(s, onLeft, l) {
        JoinCons(s, condition, l, Kept(s, onLeft, rest), kept);
        KeptConcat(s, top, MatchRow(s, condition, l, kept), JoinRows(s, condition, Kept(s, onLeft, rest), kept));
      } else {
        var others := Kept(s, top, JoinRows(s, condition, Kept(s, onLeft, rest), kept));
        assert [] + others == others;
      }
    }
  }

  // ---------------------------------------------------------------- splitting a predicate at a join

  /** A class of conjuncts as a filter, if there are any. */
  function Group(cs: seq<Conjunct>): seq<Predicate> { if cs == [] then [] else [JoinAnd(cs)] }

  /** The filters a predicate becomes when it is pushed into a join: left, right and above. */
  function Groups(p: Predicate, lt: seq<string>, rt: seq<string>): seq<Predicate> {
    var cs := SplitAnd(p);
    Group(Pick(cs, LeftOnly, lt, rt)) + Group(Pick(cs, RightOnly, lt, rt)) + Group(Pick(cs, Neither, lt, rt))
  }

  lemma GroupClear(cs: seq<Conjunct>, side: Side, lt: seq<string>, rt: seq<string>)
    ensures side == LeftOnly ==> AllClear(Group(Pick(cs, side, lt, rt)), rt)
    ensures side == RightOnly ==> AllClear(Group(Pick(cs, side, lt, rt)), lt)
  {
    var picked := Pick(cs, side, lt, rt);
    PickSubset(cs, side, lt, rt);
    if side == LeftOnly {
      JoinedClear(picked, rt);
    }
    if side == RightOnly {
      JoinedClear(picked, lt);
    }
  }

  // ---------------------------------------------------------------- safe plans

  /** Each time filters have been merged, or are split at a join, the new filters together say the
      same as the old ones; `ps` are the filters that `p` stands for. */
  ghost predicate SafeInto(input: Plan, ps: seq<Predicate>, p: Predicate)
    decreases Weight(input), 0, input
  {
    match input
    case Join(left, right, _) =>
      var lt, rt, cs := TableNames(left), TableNames(right), SplitAnd(p);
      && Same(ps, Groups(p, lt, rt))
      && SafeSide(left, Pick(cs, LeftOnly, lt, rt)) && SafeSide(right, Pick(cs, RightOnly, lt, rt))
    case Filter(inner, q) => SafeInto(inner, [q] + ps, Merged(q, p))
    case _ => Same(ps, [p])
  }

  ghost predicate SafeSide(side: Plan, cs: seq<Conjunct>)
    decreases Weight(side), 2, side
  {
    Safe(side) && (cs != [] ==> SafeInto(PushDown(side), [JoinAnd(cs)], JoinAnd(cs)))
  }

  ghost predicate Safe(plan: Plan)
    decreases Weight(plan), 1, plan
  {
    match plan
    case Scan(_, _) => true
    case Filter(input, p) => Safe(input) && SafeInto(PushDown(input), [p], p)
    case Join(left, right, _) => Safe(left) && Safe(right)
    case Project(input, _) => Safe(input)
    case Sort(input, _) => Safe(input)
    case Aggregate(input, _, _) => Safe(input)
    case Limit(input, _) => Safe(input)
  }

  /** Pushing filters down changes no safe plan's rows, neither which nor in what order. */
  lemma {:induction false} PushDownKeepsMeaning(s: Semantics, plan: Plan)
    requires Namespaced(s) && Safe(plan)
    ensures Rows(s, PushDown(plan)) == Rows(s, plan)
    decreases Weight(plan), 1, plan
  {
    match plan
    case Scan(_, _) =>
    case Filter(input, p) =>
      PushDownKeepsMeaning(s, input);
      PushIntoKeepsMeaning(s, PushDown(input), [p], p);
      FilterIsKept(s, p, Rows(s, input));
    case Join(left, right, _) =>
      PushDownKeepsMeaning(s, left);
      PushDownKeepsMeaning(s, right);
    case Project(input, _) => PushDownKeepsMeaning(s, input);
    case Sort(input, _) => PushDownKeepsMeaning(s, input);
    case Aggregate(input, _, _) => PushDownKeepsMeaning(s, input);
    case Limit(input, _) => PushDownKeepsMeaning(s, input);
  }

  lemma {:induction false} PushIntoKeepsMeaning(s: Semantics, input: Plan, ps: seq<Predicate>, p: Predicate)
    requires Namespaced(s) && SafeInto(input, ps, p)
    ensures Rows(s, PushFilterInto(input, p)) == Kept(s, ps, Rows(s, input))
    decreases Weight(input), 0, input
  {
    match input
    case Join(left, right, c) => PushIntoJoinKeepsMeaning(s, left, right, c, ps, p);
    case Filter(inner, q) =>
      PushIntoKeepsMeaning(s, inner, [q] + ps, Merged(q, p));
      KeptTwice(s, [q], ps, Rows(s, inner));
      FilterIsKept(s, q, Rows(s, inner));
    case _ =>
      FilterIsKept(s, p, Rows(s, input));
      KeptSame(s, ps, [p], Rows(s, input));
  }

  lemma {:induction false} PushIntoJoinKeepsMeaning(s: Semantics, left: Plan, right: Plan, c: Predicate,
                                                    ps: seq<Predicate>, p: Predicate)
    requires Namespaced(s) && SafeInto(Join(left, right, c), ps, p)
    ensures Rows(s, PushFilterInto(Join(left, right, c), p)) == Kept(s, ps, Rows(s, Join(left, right, c)))
    decreases Weight(left) + Weight(right), 3
  {
    var lt, rt, cs := TableNames(left), TableNames(right), SplitAnd(p);
    var onLeft, onRight, top := Pick(cs, LeftOnly, lt, rt), Pick(cs, RightOnly, lt, rt), Pick(cs, Neither, lt, rt);
    PushSideKeepsMeaning(s, left, onLeft);
    PushSideKeepsMeaning(s, right, onRight);
    SplitFilter(s, left, right, c, p);
    KeptSame(s, ps, Groups(p, lt, rt), Rows(s, Join(left, right, c)));
    var below := Join(PushSide(left, onLeft), PushSide(right, onRight), c);
    FilteredByGroup(s, below, top);
  }

  lemma FilteredByGroup(s: Semantics, below: Plan, cs: seq<Conjunct>)
    ensures Rows(s, if cs == [] then below else Filter(below, JoinAnd(cs))) == Kept(s, Group(cs), Rows(s, below))
  {
    if cs == [] {
      KeptNone(s, Rows(s, below));
    } else {
      FilterIsKept(s, JoinAnd(cs), Rows(s, below));
    }
  }

  lemma SplitFilter(s: Semantics, left: Plan, right: Plan, c: Predicate, p: Predicate)
    requires Namespaced(s)
    ensures var lt, rt, cs := TableNames(left), TableNames(right), SplitAnd(p);
            Kept(s, Groups(p, lt, rt), Rows(s, Join(left, right, c))) ==
            Kept(s, Group(Pick(cs, Neither, lt, rt)),
                 JoinRows(s, c, Kept(s, Group(Pick(cs, LeftOnly, lt, rt)), Rows(s, left)),
                                Kept(s, Group(Pick(cs, RightOnly, lt, rt)), Rows(s, right))))
  {
    var lt, rt, cs := TableNames(left), TableNames(right), SplitAnd(p);
    RowsWithin(s, left, []);
    RowsWithin(s, right, []);
    GroupClear(cs, LeftOnly, lt, rt);
    GroupClear(cs, RightOnly, lt, rt);
    KeptJoin(s, Group(Pick(cs, LeftOnly, lt, rt)), Group(Pick(cs, RightOnly, lt, rt)), Group(Pick(cs, Neither, lt, rt)),
             c, Rows(s, left), Rows(s, right), lt, rt);
  }

  lemma {:induction false} PushSideKeepsMeaning(s: Semantics, side: Plan, cs: seq<Conjunct>)
    requires Namespaced(s) && SafeSide(side, cs)
    ensures Rows(s, PushSide(side, cs)) == Kept(s, Group(cs), Rows(s, side))
    decreases Weight(side), 2, side
  {
    PushDownKeepsMeaning(s, side);
    if cs == [] {
      KeptNone(s, Rows(s, side));
    } else {
      PushIntoKeepsMeaning(s, PushDown(side), [JoinAnd(cs)], JoinAnd(cs));
    }
  }

  // ---------------------------------------------------------------- plans without `or`

  function AllTerms(ps: seq<Predicate>): set<Conjunct> {
    if ps == [] then {} else Terms(ps[0]) + AllTerms(ps[1..])
  }

  predicate AllOrFreePredicates(ps: seq<Predicate>) { forall p :: p in ps ==> OrFree(p) }

  lemma OneDisjunct(p: Predicate)
    requires OrFree(p)
    ensures Disjuncts(p) == [p]
  {
    SplitOrOfOrFree([], p);
    assert [] + p == p;
  }

  lemma AdmitsOrFree(known: set<Conjunct>, p: Predicate)
    requires OrFree(p)
    ensures Admits(known, p) <==> Terms(p) <= known
  {
    OneDisjunct(p);
    assert [p][0] in [p];
  }

  lemma {:induction false} AdmitsAllOrFree(known: set<Conjunct>, ps: seq<Predicate>)
    requires AllOrFreePredicates(ps)
    ensures AdmitsAll(known, ps) <==> AllTerms(ps) <= known
  {
    if ps != [] {
      AdmitsOrFree(known, ps[0]);
      AdmitsAllOrFree(known, ps[1..]);
      assert ps == [ps[0]] + ps[1..];
    }
  }

  lemma {:induction false} EntailsOrFree(known: set<Conjunct>, ps: seq<Predicate>, qs: seq<Predicate>)
    requires AllOrFreePredicates(ps) && AllOrFreePredicates(qs)
    ensures EntailsWith(known, ps, qs) <==> AllTerms(qs) <= known + AllTerms(ps)
    decreases ps
  {
    if ps == [] {
      AdmitsAllOrFree(known, qs);
      assert known + {} == known;
    } else {
      OneDisjunct(ps[0]);
      assert [ps[0]][0] == ps[0];
      EntailsOrFree(known + Terms(ps[0]), ps[1..], qs);
      assert known + Terms(ps[0]) + AllTerms(ps[1..]) == known + AllTerms(ps);
    }
  }

  lemma SameOrFree(ps: seq<Predicate>, qs: seq<Predicate>)
    requires AllOrFreePredicates(ps) && AllOrFreePredicates(qs) && AllTerms(ps) == AllTerms(qs)
    ensures Same(ps, qs)
  {
    EntailsOrFree({}, ps, qs);
    EntailsOrFree({}, qs, ps);
  }

  lemma TermsOfGroup(p: Predicate, side: Side, lt: seq<string>, rt: seq<string>)
    requires OrFree(p)
    ensures var cs := Pick(SplitAnd(p), side, lt, rt);
            && OrFree(JoinAnd(cs)) && AllTerms(Group(cs)) == (set c | c in cs) && AllOrFreePredicates(Group(cs))
  {
    var cs := Pick(SplitAnd(p), side, lt, rt);
    SplitIsProper([], p);
    PickSubset(SplitAnd(p), side, lt, rt);
    JoinIsOrFree(cs);
    SplitJoined(cs);
    if cs != [] {
      assert Group(cs)[1..] == [];
    }
  }

  lemma {:induction false} AllTermsConcat(ps: seq<Predicate>, qs: seq<Predicate>)
    ensures AllTerms(ps + qs) == AllTerms(ps) + AllTerms(qs)
  {
    if ps == [] {
      assert ps + qs == qs;
    } else {
      assert (ps + qs)[1..] == ps[1..] + qs;
      AllTermsConcat(ps[1..], qs);
    }
  }

  lemma {:induction false} PickCovers(cs: seq<Conjunct>, lt: seq<string>, rt: seq<string>, c: Conjunct)
    ensures c in cs <==> c in Pick(cs, LeftOnly, lt, rt) || c in Pick(cs, RightOnly, lt, rt) || c in Pick(cs, Neither, lt, rt)
  {
    if cs != [] {
      PickCovers(cs[1..], lt, rt, c);
      assert cs == [cs[0]] + cs[1..];
    }
  }

  /** The class of conjuncts of one side says no more than the predicate. */
  lemma AllTermsOfGroups(p: Predicate, lt: seq<string>, rt: seq<string>)
    requires OrFree(p)
    ensures AllTerms(Groups(p, lt, rt)) == Terms(p)
  {
    var cs := SplitAnd(p);
    var onLeft, onRight, top := Pick(cs, LeftOnly, lt, rt), Pick(cs, RightOnly, lt, rt), Pick(cs, Neither, lt, rt);
    TermsOfGroup(p, LeftOnly, lt, rt);
    TermsOfGroup(p, RightOnly, lt, rt);
    TermsOfGroup(p, Neither, lt, rt);
    AllTermsConcat(Group(onLeft) + Group(onRight), Group(top));
    AllTermsConcat(Group(onLeft), Group(onRight));
    ThreeParts(cs, onLeft, onRight, top, lt, rt);
  }

  lemma ThreeParts(cs: seq<Conjunct>, a: seq<Conjunct>, b: seq<Conjunct>, d: seq<Conjunct>, lt: seq<string>, rt: seq<string>)
    requires a == Pick(cs, LeftOnly, lt, rt) && b == Pick(cs, RightOnly, lt, rt) && d == Pick(cs, Neither, lt, rt)
    ensures (set c | c in a) + (set c | c in b) + (set c | c in d) == set c | c in cs
  {
    forall c: Conjunct ensures c in cs <==> c in a || c in b || c in d {
      PickCovers(cs, lt, rt, c);
    }
  }

  lemma OrFreeGroups(p: Predicate, lt: seq<string>, rt: seq<string>)
    requires OrFree(p)
    ensures AllOrFreePredicates(Groups(p, lt, rt)) && AllTerms(Groups(p, lt, rt)) == Terms(p)
  {
    AllTermsOfGroups(p, lt, rt);
    TermsOfGroup(p, LeftOnly, lt, rt);
    TermsOfGroup(p, RightOnly, lt, rt);
    TermsOfGroup(p, Neither, lt, rt);
  }

  /** Plans without `or` are safe, and rewriting brings none in. */
  lemma {:induction false} OrFreeIsSafe(plan: Plan)
    requires OrFreePlan(plan)
    ensures Safe(plan) && OrFreePlan(PushDown(plan))
    decreases Weight(plan), 1, plan
  {
    match plan
    case Scan(_, _) =>
    case Filter(input, p) =>
      OrFreeIsSafe(input);
      assert [p][1..] == [];
      OrFreeIntoIsSafe(PushDown(input), [p], p);
    case Join(left, right, _) =>
      OrFreeIsSafe(left);
      OrFreeIsSafe(right);
    case Project(input, _) => OrFreeIsSafe(input);
    case Sort(input, _) => OrFreeIsSafe(input);
    case Aggregate(input, _, _) => OrFreeIsSafe(input);
    case Limit(input, _) => OrFreeIsSafe(input);
  }

  lemma {:induction false} OrFreeIntoIsSafe(input: Plan, ps: seq<Predicate>, p: Predicate)
    requires OrFreePlan(input) && OrFree(p) && AllOrFreePredicates(ps) && AllTerms(ps) == Terms(p)
    ensures SafeInto(input, ps, p) && OrFreePlan(PushFilterInto(input, p))
    decreases Weight(input), 0, input
  {
    match input
    case Join(left, right, c) => OrFreeJoinIsSafe(left, right, c, ps, p);
    case Filter(inner, q) =>
      TermsMerged(q, p);
      assert ([q] + ps)[1..] == ps;
      assert !IsOr("and");
      OrFreeIntoIsSafe(inner, [q] + ps, Merged(q, p));
    case _ =>
      assert [p][1..] == [];
      SameOrFree(ps, [p]);
  }

  lemma {:induction false} OrFreeJoinIsSafe(left: Plan, right: Plan, c: Predicate, ps: seq<Predicate>, p: Predicate)
    requires OrFreePlan(left) && OrFreePlan(right) && OrFree(p) && AllOrFreePredicates(ps) && AllTerms(ps) == Terms(p)
    ensures var join := Join(left, right, c); SafeInto(join, ps, p) && OrFreePlan(PushFilterInto(join, p))
    decreases Weight(left) + Weight(right), 3
  {
    var lt, rt, cs := TableNames(left), TableNames(right), SplitAnd(p);
    OrFreeGroups(p, lt, rt);
    SameOrFree(ps, Groups(p, lt, rt));
    TermsOfGroup(p, LeftOnly, lt, rt);
    TermsOfGroup(p, RightOnly, lt, rt);
    TermsOfGroup(p, Neither, lt, rt);
    OrFreeSideIsSafe(left, Pick(cs, LeftOnly, lt, rt));
    OrFreeSideIsSafe(right, Pick(cs, RightOnly, lt, rt));
  }

  lemma {:induction false} OrFreeSideIsSafe(side: Plan, cs: seq<Conjunct>)
    requires OrFreePlan(side) && OrFree(JoinAnd(cs))
    ensures SafeSide(side, cs) && OrFreePlan(PushSide(side, cs))
    decreases Weight(side), 2, side
  {
    OrFreeIsSafe(side);
    if cs != [] {
      assert [JoinAnd(cs)][1..] == [];
      OrFreeIntoIsSafe(PushDown(side), [JoinAnd(cs)], JoinAnd(cs));
    }
  }
}
