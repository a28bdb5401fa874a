/** The loops of the optimizer, proved against the rewrite as a function. */
module PushdownCode {
  import opened Wrappers
  import opened PlanModel
  import opened Pushdown

  function NonEmpty(runs: seq<seq<Word>>): seq<seq<Word>> {
    if runs == [] then [] else Run(runs[0]) + NonEmpty(runs[1..])
  }

  lemma {:induction false} NonEmptyAppend(runs: seq<seq<Word>>, run: seq<Word>)
    ensures NonEmpty(runs + [run]) == NonEmpty(runs) + Run(run)
  {
    if runs == [] {
      assert (runs + [run])[1..] == [];
    } else {
      NonEmptyAppend(runs[1..], run);
      assert (runs + [run])[1..] == runs[1..] + [run];
    }
  }

  lemma Regroup(a: seq<Conjunct>, b: seq<Conjunct>, c: seq<Conjunct>)
    ensures (a + b) + c == a + (b + c)
  {
  }

  /** Folds over the words, extending the last run or starting a new one, then drops empty runs. */
  method SplitAndWords(p: Predicate) returns (cs: seq<Conjunct>)
    ensures cs == SplitAnd(p)
  {
    var acc: seq<seq<Word>> := [];
    ghost var done: seq<seq<Word>>, run: seq<Word> := [], [];
    for i := 0 to |p|
      invariant acc == done + [run] || (acc == done == [] && run == [])
      invariant NonEmpty(done) + SplitAndFrom(run, p[i..]) == SplitAnd(p)
    {
      var w := p[i];
      assert p[i..][1..] == p[i + 1..];
      if IsAnd(w) {
        NonEmptyAppend(done, run);
        Regroup(NonEmpty(done), Run(run), SplitAndFrom([], p[i + 1..]));
        if acc != [] {
          done := acc;
        } else {
          assert Run(run) + SplitAndFrom([], p[i + 1..]) == SplitAndFrom([], p[i + 1..]);
        }
        run := [];
        acc := acc + [[]];
      } else if acc != [] {
        assert acc[..|acc| - 1] == done;
        acc := acc[..|acc| - 1] + [acc[|acc| - 1] + [w]];
        run := run + [w];
      } else {
        acc := [[w]];
        run := run + [w];
        assert run == [w];
      }
    }
    NonEmptyAppend(done, run);
    cs := NonEmpty(acc);
  }

  method SideOf(c: Conjunct, leftTables: seq<string>, rightTables: seq<string>) returns (side: Side)
    ensures side == ConjunctSide(c, leftTables, rightTables)
    ensures side == LeftOnly <==> MentionsAny(c, leftTables) && !MentionsAny(c, rightTables)
    ensures side == RightOnly <==> MentionsAny(c, rightTables) && !MentionsAny(c, leftTables)
  {
    var tokens := ConjunctTokens(c);
    var refsLeft, refsRight := false, false;
    for i := 0 to |tokens|
      invariant refsLeft <==> exists k :: 0 <= k < i && BeforeDot(tokens[k]) in leftTables
      invariant refsRight <==> exists k :: 0 <= k < i && BeforeDot(tokens[k]) in rightTables
    {
      var prefix := BeforeDot(tokens[i]);
      if prefix in leftTables {
        refsLeft := true;
      }
      if prefix in rightTables {
        refsRight := true;
      }
    }
    MentionsByIndex(c, leftTables);
    MentionsByIndex(c, rightTables);
    side := match (refsLeft, refsRight)
            case (true, false) => LeftOnly
            case (false, true) => RightOnly
            case _ => Neither;
  }

  lemma MentionsByIndex(c: Conjunct, tables: seq<string>)
    ensures var tokens := ConjunctTokens(c);
            MentionsAny(c, tables) <==> exists k :: 0 <= k < |tokens| && BeforeDot(tokens[k]) in tables
  {
    var tokens := ConjunctTokens(c);
    if k :| 0 <= k < |tokens| && BeforeDot(tokens[k]) in tables {
      assert Mentions(c, BeforeDot(tokens[k])) by {
        assert tokens[k] in tokens;
      }
    }
  }

  /** Collects names depth-first into the accumulator. */
  method CollectTables(plan: Plan, out: seq<string>) returns (r: seq<string>)
    ensures r == TableNamesFrom(plan, out)
  {
    match plan
    case Scan(table, _) => r := if table in out then out else out + [table];
    case Join(left, right, _) =>
      r := CollectTables(left, out);
      r := CollectTables(right, r);
    case Filter(input, _) => r := CollectTables(input, out);
    case Project(input, _) => r := CollectTables(input, out);
    case Sort(input, _) => r := CollectTables(input, out);
    case Aggregate(input, _, _) => r := CollectTables(input, out);
    case Limit(input, _) => r := CollectTables(input, out);
  }

  lemma PickStep(picked: seq<Conjunct>, cs: seq<Conjunct>, i: nat, side: Side, lt: seq<string>, rt: seq<string>)
    requires i < |cs|
    ensures picked + Pick(cs[i..], side, lt, rt) ==
            (if ConjunctSide(cs[i], lt, rt) == side then picked + [cs[i]] else picked) + Pick(cs[i + 1..], side, lt, rt)
  {
    assert cs[i..][1..] == cs[i + 1..];
  }

  /** Sorts each conjunct into one of three vectors. */
  method Classify(cs: seq<Conjunct>, lt: seq<string>, rt: seq<string>)
    returns (onLeft: seq<Conjunct>, onRight: seq<Conjunct>, top: seq<Conjunct>)
    ensures onLeft == Pick(cs, LeftOnly, lt, rt)
    ensures onRight == Pick(cs, RightOnly, lt, rt)
    ensures top == Pick(cs, Neither, lt, rt)
  {
    onLeft, onRight, top := [], [], [];
    for i := 0 to |cs|
      invariant onLeft + Pick(cs[i..], LeftOnly, lt, rt) == Pick(cs, LeftOnly, lt, rt)
      invariant onRight + Pick(cs[i..], RightOnly, lt, rt) == Pick(cs, RightOnly, lt, rt)
      invariant top + Pick(cs[i..], Neither, lt, rt) == Pick(cs, Neither, lt, rt)
    {
      PickStep(onLeft, cs, i, LeftOnly, lt, rt);
      PickStep(onRight, cs, i, RightOnly, lt, rt);
      PickStep(top, cs, i, Neither, lt, rt);
      var side := SideOf(cs[i], lt, rt);
      match side
      case LeftOnly => onLeft := onLeft + [cs[i]];
      case RightOnly => onRight := onRight + [cs[i]];
      case Neither => top := top + [cs[i]];
    }
  }

  method PushDownFilters(plan: Plan) returns (r: Plan)
    ensures r == PushDown(plan)
    decreases Weight(plan), 1, plan
  {
    match plan
    case Scan(_, _) => r := plan;
    case Filter(input, p) =>
      var pushed := PushDownFilters(input);
      r := PushFilter(pushed, p);
    case Join(left, right, c) =>
      var l := PushDownFilters(left);
      var rr := PushDownFilters(right);
      r := Join(l, rr, c);
    case Project(input, cols) =>
      var i := PushDownFilters(input);
      r := Project(i, cols);
    case Sort(input, col) =>
      var i := PushDownFilters(input);
      r := Sort(i, col);
    case Aggregate(input, k, aggs) =>
      var i := PushDownFilters(input);
      r := Aggregate(i, k, aggs);
    case Limit(input, n) =>
      var i := PushDownFilters(input);
      r := Limit(i, n);
  }

  method PushFilter(input: Plan, p: Predicate) returns (r: Plan)
    ensures r == PushFilterInto(input, p)
    decreases Weight(input), 0, input
  {
    match input
    case Join(left, right, c) =>
      var cs := SplitAndWords(p);
      var lt := CollectTables(left, []);
      var rt := CollectTables(right, []);
      var onLeft, onRight, top := Classify(cs, lt, rt);
      var newLeft := PushDownFilters(left);
      if onLeft != [] {
        newLeft := PushFilter(newLeft, JoinAnd(onLeft));
      }
      var newRight := PushDownFilters(right);
      if onRight != [] {
        newRight := PushFilter(newRight, JoinAnd(onRight));
      }
      var newJoin := Join(newLeft, newRight, c);
      r := if top == [] then newJoin else Filter(newJoin, JoinAnd(top));
    case Filter(inner, q) =>
      r := PushFilter(inner, q + ["and"] + p);
    case _ =>
      r := Filter(input, p);
  }
}
