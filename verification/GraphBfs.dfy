/** Breadth-first search over the overlay yields every node at its shortest distance. */
module GraphBfs {
  import opened GraphCsr

  // ---------------------------------------------------------------- distances

  /** Each node of the walk is a neighbour of the one before. */
  ghost predicate Walk(g: CsrOverlay, p: seq<Node>)
    requires g.WellFormed()
  {
    p != [] && forall i :: 0 < i < |p| ==> p[i] in g.Neighbors(p[i - 1])
  }

  ghost predicate WalkTo(g: CsrOverlay, s: Node, v: Node, p: seq<Node>)
    requires g.WellFormed()
  {
    Walk(g, p) && p[0] == s && p[|p| - 1] == v
  }

  /** A walk of `k` edges leads from `s` to `v`. */
  ghost predicate Reaches(g: CsrOverlay, s: Node, v: Node, k: nat)
    requires g.WellFormed()
  {
    exists p :: WalkTo(g, s, v, p) && |p| == k + 1
  }

  /** `k` is the length of a shortest walk. */
  ghost predicate Shortest(g: CsrOverlay, s: Node, v: Node, k: nat)
    requires g.WellFormed()
  {
    Reaches(g, s, v, k) && forall j: nat :: j < k ==> !Reaches(g, s, v, j)
  }

  /** Some walk of at most `k` edges leads from `s` to `v`. */
  ghost predicate Within(g: CsrOverlay, s: Node, v: Node, k: nat)
    requires g.WellFormed()
  {
    exists j: nat :: j <= k && Reaches(g, s, v, j)
  }

  lemma WalkOn(g: CsrOverlay, s: Node, u: Node, v: Node, k: nat)
    requires g.WellFormed() && Reaches(g, s, u, k) && v in g.Neighbors(u)
    ensures Reaches(g, s, v, k + 1)
  {
    var p :| WalkTo(g, s, u, p) && |p| == k + 1;
    assert WalkTo(g, s, v, p + [v]);
  }

  lemma WalkBack(g: CsrOverlay, s: Node, v: Node, k: nat) returns (u: Node)
    requires g.WellFormed() && k > 0 && Reaches(g, s, v, k)
    ensures Reaches(g, s, u, k - 1) && v in g.Neighbors(u)
  {
    var p :| WalkTo(g, s, v, p) && |p| == k + 1;
    u := p[k - 1];
    assert WalkTo(g, s, u, p[..k]);
  }

  lemma ReachesStart(g: CsrOverlay, s: Node, v: Node)
    requires g.WellFormed()
    ensures Reaches(g, s, v, 0) <==> v == s
  {
    assert WalkTo(g, s, s, [s]);
  }

  /** A node at distance `k + 1` follows one at distance `k`. */
  lemma ShortestBack(g: CsrOverlay, s: Node, v: Node, k: nat) returns (u: Node)
    requires g.WellFormed() && Shortest(g, s, v, k + 1)
    ensures Shortest(g, s, u, k) && v in g.Neighbors(u)
  {
    u := WalkBack(g, s, v, k + 1);
    forall j: nat | j < k ensures !Reaches(g, s, u, j) {
      if Reaches(g, s, u, j) {
        WalkOn(g, s, u, v, j);
      }
    }
  }

  /** The first node outside the ball is the one at the next distance. */
  lemma ShortestIsNew(g: CsrOverlay, s: Node, v: Node, k: nat)
    requires g.WellFormed()
    ensures Shortest(g, s, v, k + 1) <==> Within(g, s, v, k + 1) && !Within(g, s, v, k)
  {
    if Within(g, s, v, k + 1) && !Within(g, s, v, k) {
      var j: nat :| j <= k + 1 && Reaches(g, s, v, j);
      assert j == k + 1;
    }
  }

  /** One round adds the successors of the nodes at distance `k`, and those are enough. */
  lemma WithinGrows(g: CsrOverlay, s: Node, k: nat, frontier: set<Node>, v: Node)
    requires g.WellFormed() && forall u: Node :: u in frontier <==> Shortest(g, s, u, k)
    ensures Within(g, s, v, k + 1) <==> Within(g, s, v, k) || v in Successors(g, frontier)
  {
    if v in Successors(g, frontier) {
      var u :| u in frontier && v in g.Neighbors(u);
      WalkOn(g, s, u, v, k);
    }
    ShortestIsNew(g, s, v, k);
    if Within(g, s, v, k + 1) && !Within(g, s, v, k) {
      var u := ShortestBack(g, s, v, k);
      assert u in frontier;
    }
  }

  /** Once a distance is empty, all greater ones are. */
  lemma {:induction false} NoFarther(g: CsrOverlay, s: Node, d: nat, k: nat, v: Node)
    requires g.WellFormed() && d <= k && forall u: Node :: !Shortest(g, s, u, d)
    ensures !Shortest(g, s, v, k)
    decreases k
  {
    if d < k && Shortest(g, s, v, k) {
      var u := ShortestBack(g, s, v, k - 1);
      NoFarther(g, s, d, k - 1, u);
    }
  }

  ghost function Successors(g: CsrOverlay, us: set<Node>): set<Node>
    requires g.WellFormed()
  {
    set u, v | u in us && v in g.Neighbors(u) :: v
  }

  lemma SuccessorsUnion(g: CsrOverlay, a: set<Node>, b: set<Node>)
    requires g.WellFormed()
    ensures Successors(g, a + b) == Successors(g, a) + Successors(g, b)
  {
  }

  // ---------------------------------------------------------------- the search

  type Found = (nat, Node)

  function Tagged(depth: nat, vs: seq<Node>): seq<Found> { seq(|vs|, i requires 0 <= i < |vs| => (depth, vs[i])) }

  ghost predicate Distinct(vs: seq<Node>) { forall i, j :: 0 <= i < j < |vs| ==> vs[i] != vs[j] }

  function SetOf(vs: seq<Node>): set<Node> { set v | v in vs }

  /** In order of depth and without repetition. */
  ghost predicate Ordered(out: seq<Found>) {
    forall i, j :: 0 <= i < j < |out| ==> out[i].0 <= out[j].0 && out[i].1 != out[j].1
  }

  /** All nodes at distances up to `k`, with their distances. */
  ghost predicate Exact(g: CsrOverlay, s: Node, k: nat, out: seq<Found>)
    requires g.WellFormed()
  {
    forall d: nat, v: Node :: (d, v) in out <==> d <= k && Shortest(g, s, v, d)
  }

  lemma ExactNext(g: CsrOverlay, s: Node, k: nat, out: seq<Found>, next: seq<Node>)
    requires g.WellFormed() && Exact(g, s, k, out) && forall v: Node :: v in next <==> Shortest(g, s, v, k + 1)
    ensures Exact(g, s, k + 1, out + Tagged(k + 1, next))
  {
    var more := Tagged(k + 1, next);
    forall d: nat, v: Node ensures (d, v) in out + more <==> d <= k + 1 && Shortest(g, s, v, d) {
      TaggedIn(k + 1, next, d, v);
      assert (d, v) in out <==> d <= k && Shortest(g, s, v, d);
    }
  }

  lemma TaggedIn(depth: nat, vs: seq<Node>, d: nat, v: Node)
    ensures (d, v) in Tagged(depth, vs) <==> d == depth && v in vs
  {
    if d == depth && v in vs {
      var i :| 0 <= i < |vs| && vs[i] == v;
      assert Tagged(depth, vs)[i] == (d, v);
    }
  }

  lemma OrderedNext(g: CsrOverlay, s: Node, k: nat, out: seq<Found>, next: seq<Node>)
    requires g.WellFormed() && Exact(g, s, k, out) && Ordered(out) && Distinct(next)
    requires forall v: Node :: v in next ==> Shortest(g, s, v, k + 1)
    ensures Ordered(out + Tagged(k + 1, next))
  {
    forall i, j | 0 <= i < |out| && 0 <= j < |next| ensures out[i].0 <= k && out[i].1 != next[j] {
      assert out[i] in out;
      assert (out[i].0, out[i].1) in out;
      assert next[j] in next;
    }
  }

  lemma ExactEnd(g: CsrOverlay, s: Node, d: nat, k: nat, out: seq<Found>)
    requires g.WellFormed() && Exact(g, s, d, out) && d <= k && forall u: Node :: !Shortest(g, s, u, d)
    ensures Exact(g, s, k, out)
  {
    forall e: nat, v: Node ensures (e, v) in out <==> e <= k && Shortest(g, s, v, e) {
      if d < e {
        NoFarther(g, s, d, e, v);
      }
    }
  }

  // ---------------------------------------------------------------- the order of the search

  /** The entries of a list that are not in `seen`, each where it first occurs. */
  function Fresh(vs: seq<Node>, seen: set<Node>): seq<Node> {
    if vs == [] then []
    else
      var n := |vs| - 1;
      if vs[n] in seen || vs[n] in vs[..n] then Fresh(vs[..n], seen) else Fresh(vs[..n], seen) + [vs[n]]
  }

  /** The neighbours of the nodes, node by node. */
  function Listing(g: CsrOverlay, us: seq<Node>): seq<Node>
    requires g.WellFormed()
  {
    if us == [] then [] else Listing(g, us[..|us| - 1]) + g.Neighbors(us[|us| - 1])
  }

  lemma FreshStep(vs: seq<Node>, i: nat, seen: set<Node>, now: set<Node>)
    requires i < |vs| && now == seen + SetOf(vs[..i])
    ensures Fresh(vs[..i + 1], seen) == if vs[i] in now then Fresh(vs[..i], seen) else Fresh(vs[..i], seen) + [vs[i]]
  {
    assert vs[..i + 1][..i] == vs[..i];
  }

  lemma {:induction false} FreshConcat(a: seq<Node>, b: seq<Node>, seen: set<Node>)
    ensures Fresh(a + b, seen) == Fresh(a, seen) + Fresh(b, seen + SetOf(a))
    decreases |b|
  {
    if b == [] {
      assert a + b == a;
    } else {
      var n := |b| - 1;
      FreshConcat(a, b[..n], seen);
      assert (a + b)[..|a + b| - 1] == a + b[..n];
    }
  }

  lemma {:induction false} FreshIsFresh(vs: seq<Node>, seen: set<Node>, v: Node)
    ensures v in Fresh(vs, seen) <==> v in vs && v !in seen
  {
    if vs != [] {
      var n := |vs| - 1;
      FreshIsFresh(vs[..n], seen, v);
      assert vs == vs[..n] + [vs[n]];
    }
  }

  /** `v` first occurs before `w` does. */
  ghost predicate First(vs: seq<Node>, v: Node, w: Node) {
    exists p :: 0 <= p < |vs| && vs[p] == v && w !in vs[..p + 1]
  }

  lemma FirstOn(vs: seq<Node>, n: nat, v: Node, w: Node)
    requires n <= |vs| && First(vs[..n], v, w)
    ensures First(vs, v, w)
  {
    var p :| 0 <= p < n && vs[..n][p] == v && w !in vs[..n][..p + 1];
    assert vs[..n][..p + 1] == vs[..p + 1];
  }

  lemma {:induction false} FreshInOrder(vs: seq<Node>, seen: set<Node>, i: nat, j: nat)
    requires i < j < |Fresh(vs, seen)|
    ensures First(vs, Fresh(vs, seen)[i], Fresh(vs, seen)[j])
  {
    var n := |vs| - 1;
    var init := Fresh(vs[..n], seen);
    if j < |init| {
      FreshInOrder(vs[..n], seen, i, j);
      FirstOn(vs, n, init[i], init[j]);
    } else {
      FreshIsFresh(vs[..n], seen, init[i]);
      var p :| 0 <= p < n && vs[..n][p] == init[i];
      assert forall q :: 0 <= q <= p ==> vs[q] == vs[..n][q];
    }
  }

  lemma FreshSet(vs: seq<Node>, seen: set<Node>)
    ensures SetOf(Fresh(vs, seen)) == SetOf(vs) - seen
  {
    forall v ensures v in Fresh(vs, seen) <==> v in vs && v !in seen {
      FreshIsFresh(vs, seen, v);
    }
  }

  /** What one round makes of a level and the nodes seen up to it. */
  type Rule = (seq<Node>, set<Node>) -> seq<Node>

  /** The neighbours of the nodes of the level, one list after the other, taken where they first occur. */
  ghost function RuleOf(g: CsrOverlay): Rule
    requires g.WellFormed()
  {
    (us: seq<Node>, seen: set<Node>) => Fresh(Listing(g, us), seen)
  }

  /** The nodes of one level in the order in which they are found, and the nodes of the levels before. */
  ghost function LevelOf(rule: Rule, s: Node, k: nat): (seq<Node>, set<Node>) {
    if k == 0 then ([s], {})
    else
      var (last, before) := LevelOf(rule, s, k - 1);
      (rule(last, before + SetOf(last)), before + SetOf(last))
  }

  /** The levels up to `k`, one after the other. */
  ghost function Levels(rule: Rule, s: Node, k: nat): seq<Found> {
    if k == 0 then [(0, s)] else Levels(rule, s, k - 1) + Tagged(k, LevelOf(rule, s, k).0)
  }

  /** Within a level, a node comes before another if the neighbour lists of the level before, taken in
      the order of its nodes, show it first. */
  lemma LevelInOrder(g: CsrOverlay, s: Node, k: nat, i: nat, j: nat)
    requires g.WellFormed() && k > 0 && i < j < |LevelOf(RuleOf(g), s, k).0|
    ensures var level := LevelOf(RuleOf(g), s, k).0;
            First(Listing(g, LevelOf(RuleOf(g), s, k - 1).0), level[i], level[j])
  {
    var (last, before) := LevelOf(RuleOf(g), s, k - 1);
    FreshInOrder(Listing(g, last), before + SetOf(last), i, j);
  }

  /** Behind an empty level there is nothing more. */
  lemma {:induction false} NoMoreLevels(rule: Rule, s: Node, d: nat, k: nat)
    requires d <= k && LevelOf(rule, s, d).0 == [] && forall seen :: rule([], seen) == []
    ensures LevelOf(rule, s, k).0 == [] && Levels(rule, s, k) == Levels(rule, s, d)
    decreases k
  {
    if d < k {
      NoMoreLevels(rule, s, d, k - 1);
      assert Tagged(k, []) == [];
    }
  }

  /** After the first `i` neighbours: what has been seen, queued and found. */
  ghost predicate Visiting(vs: seq<Node>, i: nat, depth: nat, seen: set<Node>, queued: seq<Node>, found: seq<Found>,
                           now: set<Node>, next: seq<Node>, out: seq<Found>)
    requires i <= |vs|
  {
    && now == seen + SetOf(vs[..i]) && SetOf(next) <= now && Distinct(next)
    && next == queued + Fresh(vs[..i], seen) && out == found + Tagged(depth, Fresh(vs[..i], seen))
  }

  lemma VisitSeen(vs: seq<Node>, i: nat, depth: nat, seen: set<Node>, queued: seq<Node>, found: seq<Found>,
                  now: set<Node>, next: seq<Node>, out: seq<Found>)
    requires i < |vs| && Visiting(vs, i, depth, seen, queued, found, now, next, out) && vs[i] in now
    ensures Visiting(vs, i + 1, depth, seen, queued, found, now, next, out)
  {
    FreshStep(vs, i, seen, now);
    assert vs[..i + 1] == vs[..i] + [vs[i]];
  }

  lemma VisitNew(vs: seq<Node>, i: nat, depth: nat, seen: set<Node>, queued: seq<Node>, found: seq<Found>,
                 now: set<Node>, next: seq<Node>, out: seq<Found>)
    requires i < |vs| && Visiting(vs, i, depth, seen, queued, found, now, next, out) && vs[i] !in now
    ensures Visiting(vs, i + 1, depth, seen, queued, found, now + {vs[i]}, next + [vs[i]], out + [(depth, vs[i])])
  {
    FreshStep(vs, i, seen, now);
    assert vs[..i + 1] == vs[..i] + [vs[i]];
    TaggedConcat(depth, Fresh(vs[..i], seen), [vs[i]]);
    assert Tagged(depth, [vs[i]]) == [(depth, vs[i])];
    assert vs[i] !in SetOf(next);
  }

  /** Marks the neighbours of one node that have not been seen and queues them. */
  method Visit(neighbors: seq<Node>, depth: nat, visited: map<Node, nat>, next: seq<Node>, out: seq<Found>)
    returns (visited': map<Node, nat>, next': seq<Node>, out': seq<Found>)
    requires Distinct(next) && SetOf(next) <= visited.Keys
    ensures visited'.Keys == visited.Keys + SetOf(neighbors)
    ensures next' == next + Fresh(neighbors, visited.Keys) && Distinct(next') && SetOf(next') <= visited'.Keys
    ensures out' == out + Tagged(depth, Fresh(neighbors, visited.Keys))
  {
    visited', next', out' := visited, next, out;
    ghost var seen := visited.Keys;
    for i := 0 to |neighbors|
      invariant Visiting(neighbors, i, depth, seen, next, out, visited'.Keys, next', out')
    {
      var v := neighbors[i];
      if v !in visited' {
        VisitNew(neighbors, i, depth, seen, next, out, visited'.Keys, next', out');
        assert visited'[v := depth].Keys == visited'.Keys + {v};
        visited' := visited'[v := depth];
        next' := next' + [v];
        out' := out' + [(depth, v)];
      } else {
        VisitSeen(neighbors, i, depth, seen, next, out, visited'.Keys, next', out');
      }
    }
    assert neighbors[..|neighbors|] == neighbors;
  }

  /** After the first `i` nodes of the frontier. */
  ghost predicate Rounding(g: CsrOverlay, frontier: seq<Node>, i: nat, depth: nat, seen: set<Node>, found: seq<Found>,
                           now: set<Node>, next: seq<Node>, out: seq<Found>)
    requires g.WellFormed() && i <= |frontier|
  {
    && now == seen + Successors(g, SetOf(frontier[..i])) && SetOf(next) <= now && Distinct(next)
    && Listed(g, frontier[..i], seen, next) && out == found + Tagged(depth, next)
  }

  lemma RoundSeen(g: CsrOverlay, frontier: seq<Node>, i: nat, seen: set<Node>, now: set<Node>)
    requires g.WellFormed() && i < |frontier| && now == seen + Successors(g, SetOf(frontier[..i]))
    ensures now + SetOf(g.Neighbors(frontier[i])) == seen + Successors(g, SetOf(frontier[..i + 1]))
  {
    FrontierStep(g, frontier, i);
  }

  lemma RoundStep(g: CsrOverlay, frontier: seq<Node>, i: nat, depth: nat, seen: set<Node>, found: seq<Found>,
                  now: set<Node>, next: seq<Node>, out: seq<Found>, now': set<Node>, next': seq<Node>, out': seq<Found>,
                  more: seq<Node>)
    requires g.WellFormed() && i < |frontier| && Rounding(g, frontier, i, depth, seen, found, now, next, out)
    requires now' == now + SetOf(g.Neighbors(frontier[i])) && SetOf(next') <= now' && Distinct(next')
    requires more == Fresh(g.Neighbors(frontier[i]), now) && next' == next + more && out' == out + Tagged(depth, more)
    ensures Rounding(g, frontier, i + 1, depth, seen, found, now', next', out')
  {
    RoundSeen(g, frontier, i, seen, now);
    ListedStep(g, frontier, i, seen, now, next, next');
    FoundStep(depth, found, next, more, out);
  }

  lemma FoundStep(depth: nat, found: seq<Found>, next: seq<Node>, more: seq<Node>, out: seq<Found>)
    requires out == found + Tagged(depth, next)
    ensures out + Tagged(depth, more) == found + Tagged(depth, next + more)
  {
    TaggedConcat(depth, next, more);
  }

  /** One round: the successors of the frontier that have not been seen. */
  method Round(g: CsrOverlay, depth: nat, frontier: seq<Node>, visited: map<Node, nat>, out: seq<Found>)
    returns (visited': map<Node, nat>, next: seq<Node>, out': seq<Found>)
    requires g.WellFormed()
    ensures visited'.Keys == visited.Keys + Successors(g, SetOf(frontier))
    ensures Distinct(next) && SetOf(next) == Successors(g, SetOf(frontier)) - visited.Keys
    ensures next == RuleOf(g)(frontier, visited.Keys)
    ensures out' == out + Tagged(depth, next)
  {
    visited', next, out' := visited, [], out;
    ghost var seen := visited.Keys;
    for i := 0 to |frontier|
      invariant Rounding(g, frontier, i, depth, seen, out, visited'.Keys, next, out')
    {
      ghost var now, queued, found := visited'.Keys, next, out';
      var neighbors := g.Neighbors(frontier[i]);
      visited', next, out' := Visit(neighbors, depth, visited', next, out');
      RoundStep(g, frontier, i, depth, seen, out, now, queued, found, visited'.Keys, next, out', Fresh(neighbors, now));
    }
    assert frontier[..|frontier|] == frontier;
    FreshSet(Listing(g, frontier), seen);
  }

  lemma TaggedConcat(depth: nat, a: seq<Node>, b: seq<Node>)
    ensures Tagged(depth, a + b) == Tagged(depth, a) + Tagged(depth, b)
  {
  }

  /** `next` is what the neighbour lists of the nodes show, without what has been seen. */
  ghost predicate Listed(g: CsrOverlay, us: seq<Node>, seen: set<Node>, next: seq<Node>)
    requires g.WellFormed()
  {
    SetOf(Listing(g, us)) == Successors(g, SetOf(us)) && next == Fresh(Listing(g, us), seen)
  }

  lemma ListingStep(g: CsrOverlay, frontier: seq<Node>, i: nat)
    requires g.WellFormed() && i < |frontier|
    ensures Listing(g, frontier[..i + 1]) == Listing(g, frontier[..i]) + g.Neighbors(frontier[i])
  {
    assert frontier[..i + 1][..i] == frontier[..i];
  }

  lemma SetOfConcat(a: seq<Node>, b: seq<Node>)
    ensures SetOf(a + b) == SetOf(a) + SetOf(b)
  {
  }

  lemma ListedStep(g: CsrOverlay, frontier: seq<Node>, i: nat, seen: set<Node>, now: set<Node>, before: seq<Node>,
                   next: seq<Node>)
    requires g.WellFormed() && i < |frontier| && Listed(g, frontier[..i], seen, before)
    requires now == seen + Successors(g, SetOf(frontier[..i]))
    requires next == before + Fresh(g.Neighbors(frontier[i]), now)
    ensures Listed(g, frontier[..i + 1], seen, next)
  {
    var listed, more := Listing(g, frontier[..i]), g.Neighbors(frontier[i]);
    ListingStep(g, frontier, i);
    FreshConcat(listed, more, seen);
    FrontierStep(g, frontier, i);
    SetOfConcat(listed, more);
  }

  lemma FrontierStep(g: CsrOverlay, frontier: seq<Node>, i: nat)
    requires g.WellFormed() && i < |frontier|
    ensures Successors(g, SetOf(frontier[..i + 1])) ==
            Successors(g, SetOf(frontier[..i])) + SetOf(g.Neighbors(frontier[i]))
  {
    assert SetOf(frontier[..i + 1]) == SetOf(frontier[..i]) + {frontier[i]} by {
      assert frontier[..i + 1] == frontier[..i] + [frontier[i]];
    }
    SuccessorsUnion(g, SetOf(frontier[..i]), {frontier[i]});
    assert Successors(g, {frontier[i]}) == SetOf(g.Neighbors(frontier[i]));
  }

  /** The search has dealt with all nodes up to distance `k`; the frontier holds the last of them. */
  ghost predicate Searched(g: CsrOverlay, s: Node, k: nat, visited: set<Node>, frontier: set<Node>, out: seq<Found>)
    requires g.WellFormed()
  {
    && Exact(g, s, k, out) && Ordered(out)
    && (forall v: Node :: v in visited <==> Within(g, s, v, k))
    && (forall v: Node :: v in frontier <==> Shortest(g, s, v, k))
  }

  lemma SearchStarts(g: CsrOverlay, s: Node)
    requires g.WellFormed()
    ensures Searched(g, s, 0, {s}, {s}, [(0, s)])
  {
    forall v: Node ensures Reaches(g, s, v, 0) <==> v == s {
      ReachesStart(g, s, v);
    }
  }

  lemma SearchGoesOn(g: CsrOverlay, s: Node, k: nat, depth: nat, visited: set<Node>, frontier: set<Node>, out: seq<Found>,
                     next: seq<Node>, found: set<Node>, now: set<Node>)
    requires g.WellFormed() && Searched(g, s, k, visited, frontier, out) && depth == k + 1
    requires Distinct(next) && found == SetOf(next) == Successors(g, frontier) - visited
    requires now == visited + Successors(g, frontier)
    ensures Searched(g, s, depth, now, found, out + Tagged(depth, next))
  {
    forall v: Node ensures v in now <==> Within(g, s, v, depth) {
      WithinGrows(g, s, k, frontier, v);
    }
    forall v: Node ensures v in next <==> Shortest(g, s, v, depth) {
      ShortestIsNew(g, s, v, k);
      WithinGrows(g, s, k, frontier, v);
      assert v in next <==> v in found;
    }
    ExactNext(g, s, k, out, next);
    OrderedNext(g, s, k, out, next);
  }

  /** Each node within `maxDepth` of `start` exactly once, with its shortest distance, by distance, and
      within a distance in the order of the neighbour lists. */
  method Bfs(g: CsrOverlay, start: Node, maxDepth: nat) returns (out: seq<Found>)
    requires g.WellFormed()
    ensures forall d: nat, v: Node :: (d, v) in out <==> d <= maxDepth && Shortest(g, start, v, d)
    ensures forall i, j :: 0 <= i < j < |out| ==> out[i].0 <= out[j].0 && out[i].1 != out[j].1
    ensures out == Levels(RuleOf(g), start, maxDepth)
  {
    var visited: map<Node, nat> := map[start := 0];
    var frontier := [start];
    out := [(0, start)];
    ghost var rule := RuleOf(g);
    Starts(g, rule, start, frontier, visited.Keys);
    var depth := 1;
    while depth <= maxDepth
      invariant 1 <= depth <= maxDepth + 1
      invariant Going(g, rule, start, depth - 1, visited.Keys, frontier, out)
    {
      ghost var seen, was := visited.Keys, out;
      var next;
      visited, next, out := Round(g, depth, frontier, visited, out);
      GoesOn(g, rule, start, depth, seen, frontier, was, next, visited.Keys);
      if next == [] {
        Stops(g, rule, start, depth, maxDepth, visited.Keys, out);
        return;
      }
      frontier := next;
      depth := depth + 1;
    }
  }

  ghost predicate Going(g: CsrOverlay, rule: Rule, s: Node, k: nat, visited: set<Node>, frontier: seq<Node>, out: seq<Found>)
    requires g.WellFormed()
  {
    Searched(g, s, k, visited, SetOf(frontier), out) && InOrder(rule, s, k, visited, frontier, out)
  }

  lemma Starts(g: CsrOverlay, rule: Rule, s: Node, frontier: seq<Node>, visited: set<Node>)
    requires g.WellFormed() && frontier == [s] && visited == {s}
    ensures Going(g, rule, s, 0, visited, frontier, [(0, s)])
  {
    SearchStarts(g, s);
    assert SetOf(frontier) == {s};
  }

  lemma GoesOn(g: CsrOverlay, rule: Rule, s: Node, k: nat, visited: set<Node>, frontier: seq<Node>, out: seq<Found>,
               next: seq<Node>, now: set<Node>)
    requires g.WellFormed() && k > 0 && Going(g, rule, s, k - 1, visited, frontier, out)
    requires now == visited + Successors(g, SetOf(frontier)) && next == rule(frontier, visited)
    requires Distinct(next) && SetOf(next) == Successors(g, SetOf(frontier)) - visited
    ensures Going(g, rule, s, k, now, next, out + Tagged(k, next))
  {
    SearchGoesOn(g, s, k - 1, k, visited, SetOf(frontier), out, next, SetOf(next), now);
    assert now == visited + SetOf(next);
    OrderGoesOn(rule, s, k, visited, frontier, out, next, now);
  }

  /** Once a round finds nothing, the search is over at every greater depth. */
  lemma Stops(g: CsrOverlay, rule: Rule, s: Node, d: nat, k: nat, visited: set<Node>, out: seq<Found>)
    requires g.WellFormed() && d <= k && Going(g, rule, s, d, visited, [], out) && forall seen :: rule([], seen) == []
    ensures Exact(g, s, k, out) && Ordered(out) && out == Levels(rule, s, k)
  {
    assert forall v: Node :: v !in SetOf([]);
    ExactEnd(g, s, d, k, out);
    NoMoreLevels(rule, s, d, k);
  }

  /** The frontier is the level `k`, and what has been seen and found are the levels up to it. */
  ghost predicate InOrder(rule: Rule, s: Node, k: nat, visited: set<Node>, frontier: seq<Node>, out: seq<Found>) {
    && frontier == LevelOf(rule, s, k).0 && visited == LevelOf(rule, s, k).1 + SetOf(frontier)
    && out == Levels(rule, s, k)
  }

  lemma OrderGoesOn(rule: Rule, s: Node, k: nat, visited: set<Node>, frontier: seq<Node>, out: seq<Found>,
                    next: seq<Node>, now: set<Node>)
    requires k > 0 && InOrder(rule, s, k - 1, visited, frontier, out)
    requires next == rule(frontier, visited) && now == visited + SetOf(next)
    ensures InOrder(rule, s, k, now, next, out + Tagged(k, next))
  {
  }

  /** Over an overlay built from `edges`, a step of a walk is an edge of the input. */
  lemma StepIsEdge(g: CsrOverlay, edges: seq<Edge>, u: Node, v: Node)
    requires g.WellFormed() && g.Neighbors(u) == Dsts(EdgesOf(edges, u))
    ensures v in g.Neighbors(u) <==> exists e :: e in edges && e.src == u && e.dst == v
  {
    var es := EdgesOf(edges, u);
    if v in g.Neighbors(u) {
      var i :| 0 <= i < |es| && es[i].dst == v;
      FromEdges(edges, u, i);
    }
    if e :| e in edges && e.src == u && e.dst == v {
      InEdgesOf(edges, e);
      var i :| 0 <= i < |es| && es[i] == e;
      assert Dsts(es)[i] == v;
    }
  }

  lemma {:induction false} FromEdges(edges: seq<Edge>, u: Node, i: nat)
    requires i < |EdgesOf(edges, u)|
    ensures EdgesOf(edges, u)[i] in edges && EdgesOf(edges, u)[i].src == u
  {
    var init, last := edges[..|edges| - 1], edges[|edges| - 1];
    if i < |EdgesOf(init, u)| {
      FromEdges(init, u, i);
    }
    assert edges == init + [last];
  }
}
