/** The nodes that two edges lead to. */
module GraphTwoHop {
  import opened GraphBfs
  import opened GraphCsr

  predicate Rising(vs: seq<Node>) { forall i, j :: 0 <= i < j < |vs| ==> vs[i] <= vs[j] }

  function PlacedNode(vs: seq<Node>, v: Node): seq<Node> {
    if vs == [] || vs[|vs| - 1] <= v then vs + [v] else PlacedNode(vs[..|vs| - 1], v) + [vs[|vs| - 1]]
  }

  /** `sort_by_key` on node ids. */
  function SortedNodes(vs: seq<Node>): seq<Node> {
    if vs == [] then [] else PlacedNode(SortedNodes(vs[..|vs| - 1]), vs[|vs| - 1])
  }

  lemma SetOfSnoc(vs: seq<Node>, v: Node)
    ensures SetOf(vs + [v]) == SetOf(vs) + {v}
  {
  }

  lemma RisingSnoc(vs: seq<Node>, v: Node)
    requires Rising(vs) && forall x :: x in vs ==> x <= v
    ensures Rising(vs + [v])
  {
    var all := vs + [v];
    forall i, j | 0 <= i < j < |all| ensures all[i] <= all[j] {
      assert all[i] == vs[i] && vs[i] in vs;
    }
  }

  /** A set of nodes with one more, whichever of the last two is placed first. */
  lemma SetOfSwap(init: seq<Node>, last: Node, v: Node, placed: seq<Node>)
    requires SetOf(placed) == SetOf(init) + {v}
    ensures SetOf(placed + [last]) == SetOf(init + [last]) + {v}
  {
    SetOfSnoc(init, last);
    SetOfSnoc(placed, last);
  }

  lemma InSetOf(vs: seq<Node>, v: Node)
    ensures v in vs <==> v in SetOf(vs)
  {
  }

  lemma {:induction false} PlacedNodeWorks(vs: seq<Node>, v: Node)
    requires Rising(vs)
    ensures Rising(PlacedNode(vs, v)) && SetOf(PlacedNode(vs, v)) == SetOf(vs) + {v}
  {
    if vs == [] || vs[|vs| - 1] <= v {
      SetOfSnoc(vs, v);
    } else {
      var init, last := vs[..|vs| - 1], vs[|vs| - 1];
      PlacedNodeWorks(init, v);
      assert vs == init + [last];
      var placed := PlacedNode(init, v);
      SetOfSwap(init, last, v, placed);
      forall x | x in placed ensures x <= last {
        InSetOf(placed, x);
        InSetOf(init, x);
      }
      RisingSnoc(placed, last);
    }
  }

  lemma {:induction false} SortedNodesWorks(vs: seq<Node>)
    ensures Rising(SortedNodes(vs)) && SetOf(SortedNodes(vs)) == SetOf(vs)
  {
    if vs != [] {
      var init, last := vs[..|vs| - 1], vs[|vs| - 1];
      SortedNodesWorks(init);
      PlacedNodeWorks(SortedNodes(init), last);
      assert vs == init + [last];
      SetOfSnoc(init, last);
    }
  }

  /** Drops each element that equals the one kept before it. */
  method Dedup(vs: seq<Node>) returns (r: seq<Node>)
    requires Rising(vs)
    ensures Rising(r) && Distinct(r) && SetOf(r) == SetOf(vs)
  {
    r := [];
    for i := 0 to |vs|
      invariant Rising(r) && Distinct(r) && SetOf(r) == SetOf(vs[..i])
      invariant r != [] ==> i > 0 && r[|r| - 1] == vs[i - 1]
      invariant i > 0 ==> r != []
    {
      assert vs[..i + 1] == vs[..i] + [vs[i]];
      SetOfSnoc(vs[..i], vs[i]);
      SetOfSnoc(r, vs[i]);
      if r == [] || r[|r| - 1] != vs[i] {
        r := r + [vs[i]];
      }
    }
    assert vs[..|vs|] == vs;
  }

  /** The nodes other than `start` that two edges lead to, in ascending order, each once. */
  method TwoHop(g: CsrOverlay, start: Node) returns (out: seq<Node>)
    requires g.WellFormed()
    ensures forall v: Node :: v in out <==> v != start && Reaches(g, start, v, 2)
    ensures forall i, j :: 0 <= i < j < |out| ==> out[i] < out[j]
  {
    var hops := [];
    var first := g.Neighbors(start);
    for i := 0 to |first|
      invariant SetOf(hops) == Successors(g, SetOf(first[..i])) - {start}
    {
      hops := CollectHops(g.Neighbors(first[i]), start, hops);
      FrontierStep(g, first, i);
    }
    assert first[..|first|] == first;
    SortedNodesWorks(hops);
    out := Dedup(SortedNodes(hops));
    forall v: Node ensures v in out <==> v != start && Reaches(g, start, v, 2) {
      assert v in out <==> v in SetOf(hops);
      TwoEdges(g, start, v);
    }
  }

  method CollectHops(neighbors: seq<Node>, start: Node, hops: seq<Node>) returns (r: seq<Node>)
    ensures SetOf(r) == SetOf(hops) + (SetOf(neighbors) - {start})
  {
    r := hops;
    for i := 0 to |neighbors|
      invariant SetOf(r) == SetOf(hops) + (SetOf(neighbors[..i]) - {start})
    {
      assert neighbors[..i + 1] == neighbors[..i] + [neighbors[i]];
      SetOfSnoc(neighbors[..i], neighbors[i]);
      SetOfSnoc(r, neighbors[i]);
      if neighbors[i] != start {
        r := r + [neighbors[i]];
      }
    }
    assert neighbors[..|neighbors|] == neighbors;
  }

  lemma TwoEdges(g: CsrOverlay, s: Node, v: Node)
    requires g.WellFormed()
    ensures v in Successors(g, SetOf(g.Neighbors(s))) <==> Reaches(g, s, v, 2)
  {
    ReachesStart(g, s, s);
    if v in Successors(g, SetOf(g.Neighbors(s))) {
      var u :| u in g.Neighbors(s) && v in g.Neighbors(u);
      WalkOn(g, s, s, u, 0);
      WalkOn(g, s, u, v, 1);
    }
    if Reaches(g, s, v, 2) {
      var u := WalkBack(g, s, v, 2);
      var w := WalkBack(g, s, u, 1);
      ReachesStart(g, s, w);
    }
  }
}
