/** Filter pushdown: the rewrite itself. */
module Pushdown {
  import opened Wrappers
  import opened PlanModel

  datatype Side = LeftOnly | RightOnly | Neither

  predicate MentionsAny(c: Conjunct, tables: seq<string>) {
    exists t :: t in tables && Mentions(c, t)
  }

  function ConjunctSide(c: Conjunct, leftTables: seq<string>, rightTables: seq<string>): Side {
    var l, r := MentionsAny(c, leftTables), MentionsAny(c, rightTables);
    if l && !r then LeftOnly else if r && !l then RightOnly else Neither
  }

  /** The conjuncts of `cs` attributed to `side`, in order. */
  function Pick(cs: seq<Conjunct>, side: Side, lt: seq<string>, rt: seq<string>): seq<Conjunct> {
    if cs == [] then []
    else if ConjunctSide(cs[0], lt, rt) == side then [cs[0]] + Pick(cs[1..], side, lt, rt)
    else Pick(cs[1..], side, lt, rt)
  }

  /** The plan with every filter erased. */
  function Skeleton(plan: Plan): Plan {
    match plan
    case Scan(_, _) => plan
    case Filter(input, _) => Skeleton(input)
    case Join(left, right, c) => Join(Skeleton(left), Skeleton(right), c)
    case Project(input, cols) => Project(Skeleton(input), cols)
    case Sort(input, col) => Sort(Skeleton(input), col)
    case Aggregate(input, k, aggs) => Aggregate(Skeleton(input), k, aggs)
    case Limit(input, n) => Limit(Skeleton(input), n)
  }

  /** The number of nodes of the skeleton. */
  function Weight(plan: Plan): nat {
    match plan
    case Scan(_, _) => 1
    case Filter(input, _) => Weight(input)
    case Join(left, right, _) => 1 + Weight(left) + Weight(right)
    case Project(input, _) => 1 + Weight(input)
    case Sort(input, _) => 1 + Weight(input)
    case Aggregate(input, _, _) => 1 + Weight(input)
    case Limit(input, _) => 1 + Weight(input)
  }

  /** Already rewritten subtrees are traversed again, so the recursion is not structural: it
      follows the weight of the skeleton, which rewriting keeps, and then the filter chain. */
  function PushDown(plan: Plan): (r: Plan)
    ensures Skeleton(r) == Skeleton(plan) && Weight(r) == Weight(plan)
    decreases Weight(plan), 1, plan
  {
    match plan
    case Scan(_, _) => plan
    case Filter(input, p) => PushFilterInto(PushDown(input), p)
    case Join(left, right, c) => Join(PushDown(left), PushDown(right), c)
    case Project(input, cols) => Project(PushDown(input), cols)
    case Sort(input, col) => Sort(PushDown(input), col)
    case Aggregate(input, k, aggs) => Aggregate(PushDown(input), k, aggs)
    case Limit(input, n) => Limit(PushDown(input), n)
  }

  function PushFilterInto(input: Plan, p: Predicate): (r: Plan)
    ensures Skeleton(r) == Skeleton(input) && Weight(r) == Weight(input)
    decreases Weight(input), 0, input
  {
    match input
    case Join(left, right, c) =>
      var lt, rt := TableNames(left), TableNames(right);
      var cs := SplitAnd(p);
      var join := Join(PushSide(left, Pick(cs, LeftOnly, lt, rt)), PushSide(right, Pick(cs, RightOnly, lt, rt)), c);
      var top := Pick(cs, Neither, lt, rt);
      if top == [] then join else Filter(join, JoinAnd(top))
    case Filter(inner, q) => PushFilterInto(inner, q + ["and"] + p)
    case _ => Filter(input, p)
  }

  /** One input of a join, with the conjuncts that belong to it. */
  function PushSide(side: Plan, cs: seq<Conjunct>): (r: Plan)
    ensures Skeleton(r) == Skeleton(side) && Weight(r) == Weight(side)
    decreases Weight(side), 2, side
  {
    if cs == [] then PushDown(side) else PushFilterInto(PushDown(side), JoinAnd(cs))
  }
}
