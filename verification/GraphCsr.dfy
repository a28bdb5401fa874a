/** The compressed-sparse-row overlay of a graph: a counting build over arrays. */
module GraphCsr {

  type Node = nat

  datatype Ref = Ref(block: nat, slot: nat)
  datatype Edge = Edge(src: Node, dst: Node, ref: Ref)

  /** The edges leaving `u`, in the order given. */
  function EdgesOf(edges: seq<Edge>, u: Node): (r: seq<Edge>)
    ensures |r| <= |edges|
  {
    if edges == [] then []
    else
      var last := edges[|edges| - 1];
      if last.src == u then EdgesOf(edges[..|edges| - 1], u) + [last] else EdgesOf(edges[..|edges| - 1], u)
  }

  /** How many edges leave a node below `u`. */
  function Before(edges: seq<Edge>, u: nat): nat {
    if u == 0 then 0 else Before(edges, u - 1) + |EdgesOf(edges, u - 1)|
  }

  function Dsts(edges: seq<Edge>): seq<Node> { seq(|edges|, i requires 0 <= i < |edges| => edges[i].dst) }
  function Refs(edges: seq<Edge>): seq<Ref> { seq(|edges|, i requires 0 <= i < |edges| => edges[i].ref) }

  // ---------------------------------------------------------------- sorting by source

  /** One edge into a list sorted by source, behind all those with the same source. */
  function Placed(sorted: seq<Edge>, e: Edge): seq<Edge> {
    if sorted == [] || sorted[|sorted| - 1].src <= e.src then sorted + [e]
    else Placed(sorted[..|sorted| - 1], e) + [sorted[|sorted| - 1]]
  }

  /** `sort_by_key` on the source: a stable sort. */
  function SortedBySrc(edges: seq<Edge>): seq<Edge> {
    if edges == [] then [] else Placed(SortedBySrc(edges[..|edges| - 1]), edges[|edges| - 1])
  }

  predicate BySrc(edges: seq<Edge>) { forall i, j :: 0 <= i < j < |edges| ==> edges[i].src <= edges[j].src }

  lemma SnocEdges(edges: seq<Edge>, e: Edge, u: Node)
    ensures EdgesOf(edges + [e], u) == if e.src == u then EdgesOf(edges, u) + [e] else EdgesOf(edges, u)
  {
    assert (edges + [e])[..|edges|] == edges;
  }

  lemma {:induction false} PlacedKeepsEdges(sorted: seq<Edge>, e: Edge, u: Node)
    ensures EdgesOf(Placed(sorted, e), u) == if e.src == u then EdgesOf(sorted, u) + [e] else EdgesOf(sorted, u)
    decreases |sorted|
  {
    if sorted == [] || sorted[|sorted| - 1].src <= e.src {
      SnocEdges(sorted, e, u);
    } else {
      var init, last := sorted[..|sorted| - 1], sorted[|sorted| - 1];
      PlacedKeepsEdges(init, e, u);
      SnocEdges(Placed(init, e), last, u);
      assert sorted == init + [last];
    }
  }

  lemma {:induction false} PlacedStaysSorted(sorted: seq<Edge>, e: Edge)
    requires BySrc(sorted)
    ensures BySrc(Placed(sorted, e)) && |Placed(sorted, e)| == |sorted| + 1
    ensures forall x :: x in Placed(sorted, e) ==> x in sorted || x == e
    decreases |sorted|
  {
    if sorted != [] && sorted[|sorted| - 1].src > e.src {
      var init, last := sorted[..|sorted| - 1], sorted[|sorted| - 1];
      PlacedStaysSorted(init, e);
      var r := Placed(init, e);
      forall i | 0 <= i < |r| ensures r[i].src <= last.src {
        assert r[i] in r;
      }
    }
  }

  /** The sort is ordered and stable: every node keeps its edges in input order. */
  lemma {:induction false} SortIsStable(edges: seq<Edge>, u: Node)
    ensures EdgesOf(SortedBySrc(edges), u) == EdgesOf(edges, u)
    ensures BySrc(SortedBySrc(edges)) && |SortedBySrc(edges)| == |edges|
  {
    if edges != [] {
      var init, last := edges[..|edges| - 1], edges[|edges| - 1];
      SortIsStable(init, u);
      PlacedKeepsEdges(SortedBySrc(init), last, u);
      PlacedStaysSorted(SortedBySrc(init), last);
    }
  }

  // ---------------------------------------------------------------- counting

  lemma {:induction false} BeforeSnoc(edges: seq<Edge>, e: Edge, u: nat)
    ensures Before(edges + [e], u) == Before(edges, u) + if e.src < u then 1 else 0
    decreases u
  {
    if u > 0 {
      BeforeSnoc(edges, e, u - 1);
      SnocEdges(edges, e, u - 1);
    }
  }

  lemma {:induction false} BeforeNone(u: nat)
    ensures Before([], u) == 0
  {
    if u > 0 {
      BeforeNone(u - 1);
    }
  }

  lemma {:induction false} BeforeAll(edges: seq<Edge>, n: nat)
    requires forall i :: 0 <= i < |edges| ==> edges[i].src < n
    ensures Before(edges, n) == |edges|
  {
    if edges == [] {
      BeforeNone(n);
    } else {
      var init, last := edges[..|edges| - 1], edges[|edges| - 1];
      BeforeAll(init, n);
      assert edges == init + [last];
      BeforeSnoc(init, last, n);
    }
  }

  lemma {:induction false} BeforeMonotone(edges: seq<Edge>, u: nat, w: nat)
    requires u <= w
    ensures Before(edges, u) <= Before(edges, w)
    ensures u < w ==> Before(edges, u) + |EdgesOf(edges, u)| <= Before(edges, w)
    decreases w - u
  {
    if u < w {
      BeforeMonotone(edges, u + 1, w);
    }
  }

  lemma {:induction false} PrefixEdges(edges: seq<Edge>, k: nat, u: Node)
    requires k <= |edges|
    ensures EdgesOf(edges[..k], u) <= EdgesOf(edges, u)
  {
    if k < |edges| {
      PrefixEdges(edges[..|edges| - 1], k, u);
      assert edges[..|edges| - 1][..k] == edges[..k];
    } else {
      assert edges[..k] == edges;
    }
  }

  /** The next edge takes the next free position of its source, inside that source's range. */
  lemma NextPosition(edges: seq<Edge>, k: nat, n: nat)
    requires k < |edges| && forall i :: 0 <= i < |edges| ==> edges[i].src < n
    ensures var s := edges[k].src;
            var j := |EdgesOf(edges[..k], s)|;
            j < |EdgesOf(edges, s)| && EdgesOf(edges, s)[j] == edges[k] && Before(edges, s) + j < |edges|
    ensures forall u :: EdgesOf(edges[..k + 1], u) == EdgesOf(edges[..k], u) + if edges[k].src == u then [edges[k]] else []
  {
    var s := edges[k].src;
    assert edges[..k + 1] == edges[..k] + [edges[k]];
    forall u ensures EdgesOf(edges[..k + 1], u) == EdgesOf(edges[..k], u) + if edges[k].src == u then [edges[k]] else [] {
      SnocEdges(edges[..k], edges[k], u);
    }
    PrefixEdges(edges, k + 1, s);
    BeforeMonotone(edges, s, n);
    BeforeAll(edges, n);
  }

  // ---------------------------------------------------------------- the overlay

  datatype CsrOverlay = CsrOverlay(offsets: seq<nat>, adjacency: seq<Node>, edgeRefs: seq<Ref>) {
    predicate WellFormed() {
      && |adjacency| == |edgeRefs|
      && (forall i :: 0 <= i < |offsets| ==> offsets[i] <= |adjacency|)
      && (forall i :: 0 <= i < |offsets| - 1 ==> offsets[i] <= offsets[i + 1])
    }

    function Neighbors(u: Node): seq<Node>
      requires WellFormed()
    {
      if u + 1 >= |offsets| then [] else adjacency[offsets[u]..offsets[u + 1]]
    }

    /** The references parallel to the neighbours of `u`. */
    function NeighborRefs(u: Node): seq<Ref>
      requires WellFormed()
    {
      if u + 1 >= |offsets| then [] else edgeRefs[offsets[u]..offsets[u + 1]]
    }
  }

  /** The positions from `lo` on hold the edges `es`. */
  ghost predicate Holds(adj: seq<Node>, refs: seq<Ref>, lo: nat, es: seq<Edge>) {
    && lo + |es| <= |adj| == |refs|
    && forall j :: 0 <= j < |es| ==> adj[lo + j] == es[j].dst && refs[lo + j] == es[j].ref
  }

  /** After the first `k` edges, each source's range holds its edges seen so far. */
  ghost predicate Filled(adj: seq<Node>, refs: seq<Ref>, edges: seq<Edge>, k: nat, n: nat) {
    k <= |edges| && forall u :: 0 <= u < n ==> HoldsOf(adj, refs, edges, k, u)
  }

  ghost predicate HoldsOf(adj: seq<Node>, refs: seq<Ref>, edges: seq<Edge>, k: nat, u: Node)
    requires k <= |edges|
  {
    Holds(adj, refs, Before(edges, u), EdgesOf(edges[..k], u))
  }

  lemma HoldsOutside(adj: seq<Node>, refs: seq<Ref>, lo: nat, es: seq<Edge>, pos: nat, e: Edge)
    requires Holds(adj, refs, lo, es) && pos < |adj| && !(lo <= pos < lo + |es|)
    ensures Holds(adj[pos := e.dst], refs[pos := e.ref], lo, es)
  {
  }

  lemma HoldsNext(adj: seq<Node>, refs: seq<Ref>, lo: nat, es: seq<Edge>, e: Edge)
    requires Holds(adj, refs, lo, es) && lo + |es| < |adj|
    ensures Holds(adj[lo + |es| := e.dst], refs[lo + |es| := e.ref], lo, es + [e])
  {
  }

  lemma OtherRange(edges: seq<Edge>, k: nat, s: Node, u: Node, n: nat)
    requires k < |edges| && edges[k].src == s && s != u && forall i :: 0 <= i < |edges| ==> edges[i].src < n
    ensures var pos := Before(edges, s) + |EdgesOf(edges[..k], s)|;
            !(Before(edges, u) <= pos < Before(edges, u) + |EdgesOf(edges[..k], u)|)
  {
    NextPosition(edges, k, n);
    PrefixEdges(edges, k, u);
    BeforeMonotone(edges, if u < s then u else s, if u < s then s else u);
  }

  lemma FilledStepAt(adj: seq<Node>, refs: seq<Ref>, edges: seq<Edge>, k: nat, n: nat, pos: nat, u: Node)
    requires k < |edges| && HoldsOf(adj, refs, edges, k, u) && forall i :: 0 <= i < |edges| ==> edges[i].src < n
    requires pos == Before(edges, edges[k].src) + |EdgesOf(edges[..k], edges[k].src)| < |adj|
    ensures HoldsOf(adj[pos := edges[k].dst], refs[pos := edges[k].ref], edges, k + 1, u)
  {
    var s := edges[k].src;
    assert edges[..k + 1] == edges[..k] + [edges[k]];
    SnocEdges(edges[..k], edges[k], u);
    if u == s {
      HoldsNext(adj, refs, Before(edges, s), EdgesOf(edges[..k], s), edges[k]);
    } else {
      OtherRange(edges, k, s, u, n);
      HoldsOutside(adj, refs, Before(edges, u), EdgesOf(edges[..k], u), pos, edges[k]);
    }
  }

  lemma FilledStep(adj: seq<Node>, refs: seq<Ref>, edges: seq<Edge>, k: nat, n: nat, pos: nat)
    requires k < |edges| && Filled(adj, refs, edges, k, n) && forall i :: 0 <= i < |edges| ==> edges[i].src < n
    requires pos == Before(edges, edges[k].src) + |EdgesOf(edges[..k], edges[k].src)| < |adj| == |refs|
    ensures Filled(adj[pos := edges[k].dst], refs[pos := edges[k].ref], edges, k + 1, n)
  {
    var next, a, r := k + 1, adj[pos := edges[k].dst], refs[pos := edges[k].ref];
    forall u | 0 <= u < n ensures HoldsOf(a, r, edges, next, u) {
      FilledStepAt(adj, refs, edges, k, n, pos, u);
    }
  }

  lemma HeldSlices(c: CsrOverlay, lo: nat, es: seq<Edge>)
    requires Holds(c.adjacency, c.edgeRefs, lo, es)
    ensures c.adjacency[lo..lo + |es|] == Dsts(es) && c.edgeRefs[lo..lo + |es|] == Refs(es)
  {
  }

  /** A filled overlay lists for each node exactly its edges. */
  lemma FilledIsOverlay(c: CsrOverlay, edges: seq<Edge>, n: nat)
    requires Filled(c.adjacency, c.edgeRefs, edges, |edges|, n) && |c.adjacency| == |c.edgeRefs| == |edges|
    requires forall i :: 0 <= i < |edges| ==> edges[i].src < n
    requires |c.offsets| == n + 1 && forall u {:trigger c.offsets[u]} :: 0 <= u <= n ==> c.offsets[u] == Before(edges, u)
    ensures c.WellFormed()
    ensures forall u: Node :: c.Neighbors(u) == Dsts(EdgesOf(edges, u)) && c.NeighborRefs(u) == Refs(EdgesOf(edges, u))
  {
    OffsetsRise(c, edges, n);
    forall u: Node ensures c.Neighbors(u) == Dsts(EdgesOf(edges, u)) && c.NeighborRefs(u) == Refs(EdgesOf(edges, u)) {
      if u >= n {
        NoEdgesOf(edges, u);
      } else {
        assert HoldsOf(c.adjacency, c.edgeRefs, edges, |edges|, u);
        OverlayAt(c, edges, u);
      }
    }
  }

  lemma OverlayAt(c: CsrOverlay, edges: seq<Edge>, u: Node)
    requires c.WellFormed() && HoldsOf(c.adjacency, c.edgeRefs, edges, |edges|, u) && u + 1 < |c.offsets|
    requires c.offsets[u] == Before(edges, u) && c.offsets[u + 1] == Before(edges, u + 1)
    ensures c.Neighbors(u) == Dsts(EdgesOf(edges, u)) && c.NeighborRefs(u) == Refs(EdgesOf(edges, u))
  {
    assert edges[..|edges|] == edges;
    HeldSlices(c, Before(edges, u), EdgesOf(edges, u));
  }

  lemma OffsetsRise(c: CsrOverlay, edges: seq<Edge>, n: nat)
    requires |c.adjacency| == |c.edgeRefs| == |edges| && forall i :: 0 <= i < |edges| ==> edges[i].src < n
    requires |c.offsets| == n + 1 && forall u {:trigger c.offsets[u]} :: 0 <= u <= n ==> c.offsets[u] == Before(edges, u)
    ensures c.WellFormed()
  {
    BeforeAll(edges, n);
    forall u | 0 <= u <= n ensures c.offsets[u] <= |edges| {
      BeforeMonotone(edges, u, n);
    }
  }

  lemma {:induction false} NoEdgesOf(edges: seq<Edge>, u: Node)
    requires forall i :: 0 <= i < |edges| ==> edges[i].src != u
    ensures EdgesOf(edges, u) == []
  {
    if edges != [] {
      NoEdgesOf(edges[..|edges| - 1], u);
    }
  }

  // ---------------------------------------------------------------- the build

  method MaxNode(edges: seq<Edge>) returns (m: nat)
    ensures forall i :: 0 <= i < |edges| ==> edges[i].src <= m && edges[i].dst <= m
    ensures edges == [] ==> m == 0
    ensures edges != [] ==> exists i :: 0 <= i < |edges| && (edges[i].src == m || edges[i].dst == m)
  {
    m := 0;
    for k := 0 to |edges|
      invariant forall i :: 0 <= i < k ==> edges[i].src <= m && edges[i].dst <= m
      invariant if k == 0 then m == 0 else exists i :: 0 <= i < k && (edges[i].src == m || edges[i].dst == m)
    {
      var here := if edges[k].src > edges[k].dst then edges[k].src else edges[k].dst;
      if here > m {
        m := here;
      }
    }
  }

  /** The number of edges of each node, one place to the right. */
  ghost predicate Counted(offsets: seq<nat>, edges: seq<Edge>, n: nat) {
    |offsets| == n + 1 && offsets[0] == 0 && forall u :: 0 < u <= n ==> offsets[u] == |EdgesOf(edges, u - 1)|
  }

  lemma CountedStep(offsets: seq<nat>, edges: seq<Edge>, e: Edge, n: nat)
    requires Counted(offsets, edges, n) && e.src < n
    ensures Counted(offsets[e.src + 1 := offsets[e.src + 1] + 1], edges + [e], n)
  {
    forall u: nat | u < n ensures |EdgesOf(edges + [e], u)| == |EdgesOf(edges, u)| + if e.src == u then 1 else 0 {
      SnocEdges(edges, e, u);
    }
  }

  /** Counts the edges of each node, then sums the counts up. */
  method Offsets(edges: seq<Edge>, n: nat) returns (r: seq<nat>)
    requires forall i :: 0 <= i < |edges| ==> edges[i].src < n
    ensures |r| == n + 1 && forall u {:trigger r[u]} :: 0 <= u <= n ==> r[u] == Before(edges, u)
  {
    var offsets := new nat[n + 1](_ => 0);
    for k := 0 to |edges|
      invariant Counted(offsets[..], edges[..k], n)
    {
      ghost var was := offsets[..];
      CountedStep(was, edges[..k], edges[k], n);
      assert edges[..k + 1] == edges[..k] + [edges[k]];
      offsets[edges[k].src + 1] := offsets[edges[k].src + 1] + 1;
      assert offsets[..] == was[edges[k].src + 1 := was[edges[k].src + 1] + 1];
    }
    assert edges[..|edges|] == edges;
    SumUp(offsets, edges, n);
    r := offsets[..];
  }

  /** Summed up below `i`, still counts from there on. */
  ghost predicate HalfSummed(offsets: seq<nat>, edges: seq<Edge>, i: nat, n: nat) {
    && |offsets| == n + 1
    && (forall u {:trigger offsets[u]} :: 0 <= u < i && u <= n ==> offsets[u] == Before(edges, u))
    && (forall u {:trigger offsets[u]} :: i <= u <= n && u > 0 ==> offsets[u] == |EdgesOf(edges, u - 1)|)
  }

  lemma SumStep(offsets: seq<nat>, edges: seq<Edge>, i: nat, n: nat)
    requires 0 < i <= n && HalfSummed(offsets, edges, i, n)
    ensures HalfSummed(offsets[i := offsets[i] + offsets[i - 1]], edges, i + 1, n)
  {
  }

  method SumUp(offsets: array<nat>, edges: seq<Edge>, n: nat)
    requires Counted(offsets[..], edges, n)
    modifies offsets
    ensures HalfSummed(offsets[..], edges, n + 1, n)
  {
    for i := 1 to n + 1
      invariant HalfSummed(offsets[..], edges, i, n)
    {
      ghost var was := offsets[..];
      SumStep(was, edges, i, n);
      offsets[i] := offsets[i] + offsets[i - 1];
      assert offsets[..] == was[i := was[i] + was[i - 1]];
    }
  }

  lemma FilledStart(adj: seq<Node>, refs: seq<Ref>, edges: seq<Edge>, n: nat)
    requires |adj| == |refs| == |edges| && forall i :: 0 <= i < |edges| ==> edges[i].src < n
    ensures Filled(adj, refs, edges, 0, n)
  {
    forall u | 0 <= u < n ensures HoldsOf(adj, refs, edges, 0, u) {
      BeforeAll(edges, n);
      BeforeMonotone(edges, u, n);
    }
  }

  /** The cursors have passed the first `k` edges. */
  ghost predicate Passed(cursor: seq<nat>, edges: seq<Edge>, k: nat, n: nat) {
    k <= |edges| && |cursor| == n && forall u {:trigger cursor[u]} :: 0 <= u < n ==> cursor[u] == |EdgesOf(edges[..k], u)|
  }

  lemma PassedStep(cursor: seq<nat>, edges: seq<Edge>, k: nat, n: nat)
    requires k < |edges| && edges[k].src < n && Passed(cursor, edges, k, n)
    ensures Passed(cursor[edges[k].src := cursor[edges[k].src] + 1], edges, k + 1, n)
  {
    assert edges[..k + 1] == edges[..k] + [edges[k]];
    forall u: nat | u < n
      ensures |EdgesOf(edges[..k + 1], u)| == |EdgesOf(edges[..k], u)| + if edges[k].src == u then 1 else 0
    {
      SnocEdges(edges[..k], edges[k], u);
    }
  }

  lemma NextFree(edges: seq<Edge>, offsets: seq<nat>, cursor: seq<nat>, k: nat, n: nat)
    requires k < |edges| && (forall i :: 0 <= i < |edges| ==> edges[i].src < n) && Passed(cursor, edges, k, n)
    requires |offsets| == n + 1 && forall u {:trigger offsets[u]} :: 0 <= u <= n ==> offsets[u] == Before(edges, u)
    ensures var s := edges[k].src;
            offsets[s] + cursor[s] == Before(edges, s) + |EdgesOf(edges[..k], s)| < |edges|
  {
    NextPosition(edges, k, n);
  }

  /** Puts each edge at the cursor of its source. */
  method Fill(edges: seq<Edge>, offsets: seq<nat>, n: nat) returns (adj: seq<Node>, refs: seq<Ref>)
    requires forall i :: 0 <= i < |edges| ==> edges[i].src < n
    requires |offsets| == n + 1 && forall u {:trigger offsets[u]} :: 0 <= u <= n ==> offsets[u] == Before(edges, u)
    ensures Filled(adj, refs, edges, |edges|, n) && |adj| == |refs| == |edges|
  {
    var adjacency := new Node[|edges|](_ => 0);
    var edgeRefs := new Ref[|edges|](_ => Ref(0, 0));
    var cursor := new nat[n](_ => 0);
    FilledStart(adjacency[..], edgeRefs[..], edges, n);
    for k := 0 to |edges|
      invariant Passed(cursor[..], edges, k, n) && Filled(adjacency[..], edgeRefs[..], edges, k, n)
    {
      ghost var c, a, f := cursor[..], adjacency[..], edgeRefs[..];
      var s := edges[k].src;
      var pos := offsets[s] + cursor[s];
      NextFree(edges, offsets, c, k, n);
      FilledStep(a, f, edges, k, n, pos);
      PassedStep(c, edges, k, n);
      adjacency[pos] := edges[k].dst;
      edgeRefs[pos] := edges[k].ref;
      cursor[s] := cursor[s] + 1;
      assert adjacency[..] == a[pos := edges[k].dst] && edgeRefs[..] == f[pos := edges[k].ref];
      assert cursor[..] == c[s := c[s] + 1];
    }
    adj, refs := adjacency[..], edgeRefs[..];
  }

  /** Every node's neighbours are the destinations of its edges, in input order, with their
      references in parallel. */
  method Build(edges: seq<Edge>) returns (c: CsrOverlay)
    ensures c.WellFormed() && |c.adjacency| == |edges|
    ensures forall u: Node :: c.Neighbors(u) == Dsts(EdgesOf(edges, u)) && c.NeighborRefs(u) == Refs(EdgesOf(edges, u))
    ensures |c.offsets| >= 2 && forall e :: e in edges ==> e.src < |c.offsets| - 1 && e.dst < |c.offsets| - 1
  {
    var sorted := SortedBySrc(edges);
    SortKeepsAll(edges);
    var m := MaxNode(sorted);
    var offsets := Offsets(sorted, m + 1);
    var adj, refs := Fill(sorted, offsets, m + 1);
    c := CsrOverlay(offsets, adj, refs);
    FilledIsOverlay(c, sorted, m + 1);
    forall u: Node ensures EdgesOf(sorted, u) == EdgesOf(edges, u) {
      SortIsStable(edges, u);
    }
  }

  lemma SortKeepsAll(edges: seq<Edge>)
    ensures |SortedBySrc(edges)| == |edges| && forall e :: e in edges ==> e in SortedBySrc(edges)
  {
    SortIsStable(edges, 0);
    forall e | e in edges ensures e in SortedBySrc(edges) {
      InEdgesOf(edges, e);
      SortIsStable(edges, e.src);
      InEdgesOf(SortedBySrc(edges), e);
    }
  }

  lemma {:induction false} InEdgesOf(edges: seq<Edge>, e: Edge)
    ensures e in EdgesOf(edges, e.src) <==> e in edges
  {
    if edges != [] {
      InEdgesOf(edges[..|edges| - 1], e);
      assert edges == edges[..|edges| - 1] + [edges[|edges| - 1]];
    }
  }
}
