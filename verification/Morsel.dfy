/** Out-of-core operators: a sort that spills sorted runs and merges them with a heap, and an equi-join
    over hash partitions. */
module Morsel {
  import opened Wrappers
  import opened Bytes

  // ---------------------------------------------------------------- sorted runs

  predicate Sorted(s: seq<I64>) { forall i, j :: 0 <= i < j < |s| ==> s[i] <= s[j] }

  function PlacedIn(s: seq<I64>, x: I64): seq<I64> {
    if s == [] || s[|s| - 1] <= x then s + [x] else PlacedIn(s[..|s| - 1], x) + [s[|s| - 1]]
  }

  /** The in-memory sort of one buffer. */
  function SortedCopy(s: seq<I64>): seq<I64> {
    if s == [] then [] else PlacedIn(SortedCopy(s[..|s| - 1]), s[|s| - 1])
  }

  lemma Bag<T>(a: seq<T>, b: seq<T>)
    ensures multiset(a + b) == multiset(a) + multiset(b)
  {
  }

  ghost predicate AtMost(s: seq<I64>, m: I64) { forall i :: 0 <= i < |s| ==> s[i] <= m }

  lemma {:induction false} PlacedInAtMost(s: seq<I64>, x: I64, m: I64)
    requires AtMost(s, m) && x <= m
    ensures AtMost(PlacedIn(s, x), m)
  {
    if s != [] && s[|s| - 1] > x {
      PlacedInAtMost(s[..|s| - 1], x, m);
    }
  }

  lemma BagWithLast(init: seq<I64>, x: I64, last: I64, r: seq<I64>)
    requires multiset(r) == multiset(init) + multiset{x}
    ensures multiset(r + [last]) == multiset(init + [last]) + multiset{x}
  {
    Bag(r, [last]);
    Bag(init, [last]);
  }

  lemma {:induction false} PlacedInBag(s: seq<I64>, x: I64)
    ensures multiset(PlacedIn(s, x)) == multiset(s) + multiset{x}
  {
    if s == [] || s[|s| - 1] <= x {
      Bag(s, [x]);
    } else {
      var init, last := s[..|s| - 1], s[|s| - 1];
      PlacedInBag(init, x);
      BagWithLast(init, x, last, PlacedIn(init, x));
      assert s == init + [last];
    }
  }

  lemma {:induction false} PlacedInSorted(s: seq<I64>, x: I64)
    requires Sorted(s)
    ensures Sorted(PlacedIn(s, x))
  {
    if s != [] && s[|s| - 1] > x {
      PlacedInSorted(s[..|s| - 1], x);
      PlacedInAtMost(s[..|s| - 1], x, s[|s| - 1]);
    }
  }

  lemma {:induction false} SortedCopyWorks(s: seq<I64>)
    ensures Sorted(SortedCopy(s)) && multiset(SortedCopy(s)) == multiset(s)
  {
    if s != [] {
      SortedCopyWorks(s[..|s| - 1]);
      PlacedInBag(SortedCopy(s[..|s| - 1]), s[|s| - 1]);
      PlacedInSorted(SortedCopy(s[..|s| - 1]), s[|s| - 1]);
      Bag(s[..|s| - 1], [s[|s| - 1]]);
      assert s == s[..|s| - 1] + [s[|s| - 1]];
    }
  }

  // ---------------------------------------------------------------- what is left of the runs

  /** The elements of the first `n` runs from the given positions on. */
  ghost function Left(runs: seq<seq<I64>>, pos: seq<nat>, n: nat): multiset<I64>
    requires n <= |runs| == |pos| && forall r :: 0 <= r < |runs| ==> pos[r] <= |runs[r]|
  {
    if n == 0 then multiset{} else Left(runs, pos, n - 1) + multiset(runs[n - 1][pos[n - 1]..])
  }

  lemma {:induction false} LeftTakes(runs: seq<seq<I64>>, pos: seq<nat>, n: nat, r: nat)
    requires n <= |runs| == |pos| && (forall r :: 0 <= r < |runs| ==> pos[r] <= |runs[r]|)
    requires r < |runs| && pos[r] < |runs[r]|
    ensures Left(runs, pos, n) ==
            Left(runs, pos[r := pos[r] + 1], n) + if r < n then multiset{runs[r][pos[r]]} else multiset{}
  {
    if n > 0 {
      LeftTakes(runs, pos, n - 1, r);
      if r == n - 1 {
        assert runs[r][pos[r]..] == [runs[r][pos[r]]] + runs[r][pos[r] + 1..];
      }
    }
  }

  lemma {:induction false} NothingLeft(runs: seq<seq<I64>>, pos: seq<nat>, n: nat)
    requires n <= |runs| == |pos| && forall r :: 0 <= r < |runs| ==> pos[r] == |runs[r]|
    ensures Left(runs, pos, n) == multiset{}
  {
    if n > 0 {
      NothingLeft(runs, pos, n - 1);
    }
  }

  ghost function AllOf(runs: seq<seq<I64>>): multiset<I64> {
    if runs == [] then multiset{} else AllOf(runs[..|runs| - 1]) + multiset(runs[|runs| - 1])
  }

  lemma {:induction false} LeftAtStart(runs: seq<seq<I64>>, pos: seq<nat>, n: nat)
    requires n <= |runs| == |pos| && forall r :: 0 <= r < |runs| ==> pos[r] == 0
    ensures Left(runs, pos, n) == AllOf(runs[..n])
  {
    if n > 0 {
      LeftAtStart(runs, pos, n - 1);
      assert runs[..n][..n - 1] == runs[..n - 1];
      assert runs[n - 1][0..] == runs[n - 1];
    }
  }

  // ---------------------------------------------------------------- the heap

  datatype Entry = Entry(val: I64, run: nat, elem: nat)

  predicate Below(a: Entry, b: Entry) {
    a.val < b.val || (a.val == b.val && (a.run < b.run || (a.run == b.run && a.elem <= b.elem)))
  }

  /** Takes out the least entry. */
  method PopLeast(heap: seq<Entry>) returns (least: Entry, rest: seq<Entry>, ghost at: nat)
    requires heap != []
    ensures at < |heap| && least == heap[at] && rest == Dropped(heap, at)
    ensures forall e :: e in heap ==> Below(least, e)
  {
    var m := 0;
    for i := 1 to |heap|
      invariant m < i && forall k :: 0 <= k < i ==> Below(heap[m], heap[k])
    {
      if Below(heap[i], heap[m]) {
        m := i;
      }
    }
    least, rest, at := heap[m], heap[..m] + heap[m + 1..], m;
  }

  /** The heap holds the next element of each run that is not used up. */
  ghost predicate Heads(heap: seq<Entry>, runs: seq<seq<I64>>, pos: seq<nat>) {
    Positions(runs, pos) && AllHeads(heap, runs, pos) && RunsApart(heap) && HasHeads(heap, runs, pos)
  }

  ghost predicate Positions(runs: seq<seq<I64>>, pos: seq<nat>) {
    |pos| == |runs| && forall r :: 0 <= r < |runs| ==> pos[r] <= |runs[r]|
  }

  ghost predicate AllHeads(heap: seq<Entry>, runs: seq<seq<I64>>, pos: seq<nat>)
    requires |pos| == |runs|
  {
    forall i :: 0 <= i < |heap| ==> IsHead(heap[i], runs, pos)
  }

  ghost predicate RunsApart(heap: seq<Entry>) { forall i, j :: 0 <= i < j < |heap| ==> heap[i].run != heap[j].run }

  ghost predicate HasHeads(heap: seq<Entry>, runs: seq<seq<I64>>, pos: seq<nat>)
    requires |pos| == |runs|
  {
    forall r :: 0 <= r < |runs| && pos[r] < |runs[r]| ==> Entry(runs[r][pos[r]], r, pos[r]) in heap
  }

  ghost predicate IsHead(e: Entry, runs: seq<seq<I64>>, pos: seq<nat>)
    requires |pos| == |runs|
  {
    e.run < |runs| && e.elem == pos[e.run] < |runs[e.run]| && e.val == runs[e.run][e.elem]
  }

  function Dropped(heap: seq<Entry>, i: nat): seq<Entry>
    requires i < |heap|
  {
    heap[..i] + heap[i + 1..]
  }

  lemma DroppedIs(heap: seq<Entry>, i: nat)
    requires i < |heap|
    ensures var rest := Dropped(heap, i);
            && |rest| == |heap| - 1
            && forall k :: 0 <= k < |rest| ==> rest[k] == heap[if k < i then k else k + 1]
    ensures forall h :: h in heap ==> h == heap[i] || h in Dropped(heap, i)
  {
    forall h | h in heap ensures h == heap[i] || h in Dropped(heap, i) {
      var m :| 0 <= m < |heap| && heap[m] == h;
      if m != i {
        assert Dropped(heap, i)[if m < i then m else m - 1] == h;
      }
    }
  }

  lemma DroppedHeads(heap: seq<Entry>, i: nat, runs: seq<seq<I64>>, pos: seq<nat>)
    requires i < |heap| && Heads(heap, runs, pos)
    ensures var e, rest := heap[i], Dropped(heap, i);
            && e.run < |runs| && (forall k :: 0 <= k < |rest| ==> IsHead(rest[k], runs, pos) && rest[k].run != e.run)
            && RunsApart(rest)
  {
    DroppedIs(heap, i);
    assert IsHead(heap[i], runs, pos);
  }

  /** The heap after the head `e` of a run has been taken out of `rest`. */
  function Refilled(rest: seq<Entry>, e: Entry, runs: seq<seq<I64>>): seq<Entry>
    requires e.run < |runs|
  {
    if e.elem + 1 < |runs[e.run]| then rest + [Entry(runs[e.run][e.elem + 1], e.run, e.elem + 1)] else rest
  }

  lemma RefilledHeads(heap: seq<Entry>, i: nat, runs: seq<seq<I64>>, pos: seq<nat>)
    requires i < |heap| && Heads(heap, runs, pos) && heap[i].run < |runs|
    ensures var e := heap[i];
            var next := pos[e.run := e.elem + 1];
            Positions(runs, next) && AllHeads(Refilled(Dropped(heap, i), e, runs), runs, next) &&
            RunsApart(Refilled(Dropped(heap, i), e, runs))
  {
    assert IsHead(heap[i], runs, pos);
    DroppedHeads(heap, i, runs, pos);
  }

  lemma RefilledHas(heap: seq<Entry>, i: nat, runs: seq<seq<I64>>, pos: seq<nat>)
    requires i < |heap| && Heads(heap, runs, pos) && heap[i].run < |runs|
    ensures var e := heap[i]; HasHeads(Refilled(Dropped(heap, i), e, runs), runs, pos[e.run := e.elem + 1])
  {
    var e, rest := heap[i], Dropped(heap, i);
    var next, all := pos[e.run := e.elem + 1], Refilled(rest, e, runs);
    assert IsHead(heap[i], runs, pos);
    DroppedIs(heap, i);
    forall r | 0 <= r < |runs| && next[r] < |runs[r]| ensures Entry(runs[r][next[r]], r, next[r]) in all {
      if r == e.run {
        assert all[|rest|] == Entry(runs[r][next[r]], r, next[r]);
      } else {
        assert Entry(runs[r][pos[r]], r, pos[r]) in heap;
        assert Entry(runs[r][pos[r]], r, pos[r]) in rest;
      }
    }
  }

  /** After the least head has been emitted, the next element of its run takes its place. */
  lemma HeadsNext(heap: seq<Entry>, i: nat, runs: seq<seq<I64>>, pos: seq<nat>)
    requires Heads(heap, runs, pos) && i < |heap|
    ensures var e := heap[i];
            && IsHead(e, runs, pos)
            && Heads(Refilled(Dropped(heap, i), e, runs), runs, pos[e.run := e.elem + 1])
  {
    assert IsHead(heap[i], runs, pos);
    RefilledHeads(heap, i, runs, pos);
    RefilledHas(heap, i, runs, pos);
  }

  /** Everything emitted is at most everything still in the heap. */
  ghost predicate Ahead(result: seq<I64>, heap: seq<Entry>) {
    forall i, k :: 0 <= i < |result| && 0 <= k < |heap| ==> result[i] <= heap[k].val
  }

  method FirstHeads(runs: seq<seq<I64>>) returns (heap: seq<Entry>, ghost pos: seq<nat>)
    ensures Heads(heap, runs, pos) && forall r :: 0 <= r < |runs| ==> pos[r] == 0
  {
    pos := seq(|runs|, _ => 0);
    heap := [];
    for r := 0 to |runs|
      invariant forall i :: 0 <= i < |heap| ==> IsHead(heap[i], runs, pos) && heap[i].run < r
      invariant forall i, j :: 0 <= i < j < |heap| ==> heap[i].run != heap[j].run
      invariant forall q :: 0 <= q < r && pos[q] < |runs[q]| ==> Entry(runs[q][pos[q]], q, pos[q]) in heap
    {
      if runs[r] != [] {
        heap := heap + [Entry(runs[r][0], r, 0)];
      }
    }
  }

  /** The merge of sorted runs: sorted, and all their elements. */
  method MergeRuns(runs: seq<seq<I64>>) returns (result: seq<I64>)
    requires forall r :: 0 <= r < |runs| ==> Sorted(runs[r])
    ensures Sorted(result) && multiset(result) == AllOf(runs)
  {
    var heap: seq<Entry>;
    ghost var pos: seq<nat>;
    heap, pos := FirstHeads(runs);
    LeftAtStart(runs, pos, |runs|);
    assert runs[..|runs|] == runs;
    result := [];
    while heap != []
      invariant Heads(heap, runs, pos) && Sorted(result) && Ahead(result, heap)
      invariant multiset(result) + Left(runs, pos, |runs|) == AllOf(runs)
      decreases |Left(runs, pos, |runs|)|
    {
      var e, rest, i := PopLeast(heap);
      HeadsNext(heap, i, runs, pos);
      LeftTakes(runs, pos, |runs|, e.run);
      AheadNext(result, heap, i, runs);
      Bag(result, [e.val]);
      result := result + [e.val];
      pos := pos[e.run := e.elem + 1];
      heap := rest;
      if e.elem + 1 < |runs[e.run]| {
        heap := heap + [Entry(runs[e.run][e.elem + 1], e.run, e.elem + 1)];
      }
    }
    AllUsed(runs, pos);
  }

  lemma AllUsed(runs: seq<seq<I64>>, pos: seq<nat>)
    requires Heads([], runs, pos)
    ensures Left(runs, pos, |runs|) == multiset{}
  {
    NothingLeft(runs, pos, |runs|);
  }

  lemma AheadNext(result: seq<I64>, heap: seq<Entry>, i: nat, runs: seq<seq<I64>>)
    requires Sorted(result) && Ahead(result, heap) && i < |heap| && heap[i].run < |runs|
    requires var e := heap[i];
             && (forall h :: h in heap ==> Below(e, h)) && e.elem < |runs[e.run]|
             && e.val == runs[e.run][e.elem] && Sorted(runs[e.run])
    ensures Sorted(result + [heap[i].val]) && Ahead(result + [heap[i].val], Refilled(Dropped(heap, i), heap[i], runs))
  {
    var e, rest := heap[i], Dropped(heap, i);
    var all := Refilled(rest, e, runs);
    DroppedIs(heap, i);
    forall j | 0 <= j < |result| ensures result[j] <= e.val {
      assert result[j] <= heap[i].val;
    }
    forall k | 0 <= k < |all| ensures e.val <= all[k].val {
      if k < |rest| {
        assert rest[k] == heap[if k < i then k else k + 1];
        assert Below(e, rest[k]);
      }
    }
  }

  class ExternalMergeSort {
    const runSize: nat
    var runs: seq<seq<I64>>
    var buffer: seq<I64>
    /** Everything pushed so far. */
    ghost var pushed: multiset<I64>

    ghost predicate Valid()
      reads this
    {
      && (forall r :: 0 <= r < |runs| ==> Sorted(runs[r]))
      && pushed == AllOf(runs) + multiset(buffer)
    }

    constructor (runSize: nat)
      ensures Valid() && pushed == multiset{}
    {
      this.runSize, runs, buffer, pushed := runSize, [], [], multiset{};
    }

    method Push(value: I64)
      requires Valid()
      modifies this
      ensures Valid() && pushed == old(pushed) + multiset{value}
      ensures old(|buffer|) < runSize ==> |buffer| < runSize
    {
      buffer := buffer + [value];
      pushed := pushed + multiset{value};
      if |buffer| >= runSize {
        Spill();
      }
    }

    method Spill()
      requires Valid()
      modifies this`runs, this`buffer
      ensures Valid() && buffer == []
    {
      if buffer == [] {
        return;
      }
      SortedCopyWorks(buffer);
      var more := runs + [SortedCopy(buffer)];
      assert more[..|runs|] == runs;
      runs := more;
      buffer := [];
    }

    /** A sorted permutation of everything pushed, whatever the run size. */
    method Finish() returns (result: seq<I64>)
      requires Valid()
      modifies this`runs, this`buffer
      ensures Sorted(result) && multiset(result) == pushed
    {
      Spill();
      if runs == [] {
        return [];
      }
      if |runs| == 1 {
        assert runs[..0] == [] && AllOf(runs) == multiset(runs[0]);
        return runs[0];
      }
      result := MergeRuns(runs);
    }
  }

  // ---------------------------------------------------------------- the partitioned join

  type Tuple = (I64, I64)

  const HASH_FACTOR: nat := 0x9E37_79B9_7F4A_7C15

  /** The wrapping product as an unsigned number, modulo the number of partitions. */
  function PartitionOf(key: I64, count: nat): (p: nat)
    requires count > 0
    ensures p < count
  {
    ((key * HASH_FACTOR) % U64_RANGE) % count
  }

  type Partitioner = I64 -> nat

  function ByHash(count: nat): Partitioner
    requires count > 0
  {
    key => PartitionOf(key, count)
  }

  /** The tuples that go to partition `p`. */
  function Part(ts: seq<Tuple>, split: Partitioner, p: nat): seq<Tuple> {
    if ts == [] then []
    else if split(ts[|ts| - 1].0) == p then Part(ts[..|ts| - 1], split, p) + [ts[|ts| - 1]]
    else Part(ts[..|ts| - 1], split, p)
  }

  /** The values stored under `key`. */
  function ValuesOf(build: seq<Tuple>, key: I64): seq<I64> {
    if build == [] then []
    else if build[|build| - 1].0 == key then ValuesOf(build[..|build| - 1], key) + [build[|build| - 1].1]
    else ValuesOf(build[..|build| - 1], key)
  }

  function PairsWith(values: seq<I64>, probe: I64): seq<Tuple> { seq(|values|, i requires 0 <= i < |values| => (values[i], probe)) }

  /** The plain equi-join of two relations on their keys. */
  function KeyJoin(build: seq<Tuple>, probe: seq<Tuple>): seq<Tuple> {
    if probe == [] then []
    else
      var last := probe[|probe| - 1];
      KeyJoin(build, probe[..|probe| - 1]) + PairsWith(ValuesOf(build, last.0), last.1)
  }

  /** The joins of the first `n` partitions, one after the other. */
  ghost function PartJoins(build: seq<Tuple>, probe: seq<Tuple>, split: Partitioner, n: nat): seq<Tuple> {
    if n == 0 then []
    else PartJoins(build, probe, split, n - 1) + KeyJoin(Part(build, split, n - 1), Part(probe, split, n - 1))
  }

  lemma {:induction false} PartHasValues(build: seq<Tuple>, split: Partitioner, key: I64)
    ensures ValuesOf(Part(build, split, split(key)), key) == ValuesOf(build, key)
  {
    if build != [] {
      var init, last, p := build[..|build| - 1], build[|build| - 1], split(key);
      PartHasValues(init, split, key);
      var part := Part(init, split, p);
      assert (part + [last])[..|part|] == part;
    }
  }

  ghost function PartRows(build: seq<Tuple>, probe: seq<Tuple>, split: Partitioner, n: nat): multiset<Tuple> {
    if n == 0 then multiset{}
    else PartRows(build, probe, split, n - 1) + multiset(KeyJoin(Part(build, split, n - 1), Part(probe, split, n - 1)))
  }

  lemma {:induction false} NoProbeNoRows(build: seq<Tuple>, split: Partitioner, n: nat)
    ensures PartRows(build, [], split, n) == multiset{}
  {
    if n > 0 {
      NoProbeNoRows(build, split, n - 1);
    }
  }

  lemma {:induction false} PartRowsAre(build: seq<Tuple>, probe: seq<Tuple>, split: Partitioner, n: nat)
    ensures multiset(PartJoins(build, probe, split, n)) == PartRows(build, probe, split, n)
  {
    if n > 0 {
      PartRowsAre(build, probe, split, n - 1);
      Bag(PartJoins(build, probe, split, n - 1), KeyJoin(Part(build, split, n - 1), Part(probe, split, n - 1)));
    }
  }

  function OnlyIf(cond: bool, m: multiset<Tuple>): multiset<Tuple> { if cond then m else multiset{} }

  lemma SumBags(a: multiset<Tuple>, x: multiset<Tuple>, b: multiset<Tuple>, y: multiset<Tuple>)
    ensures (a + x) + (b + y) == (a + b) + (x + y)
  {
  }

  lemma OneOf(p: nat, n: nat, m: multiset<Tuple>)
    ensures OnlyIf(p < n, m) + OnlyIf(p == n, m) == OnlyIf(p < n + 1, m)
  {
  }

  /** One more probe tuple adds its rows in exactly one partition. */
  lemma {:induction false} ProbeAddsOnce(build: seq<Tuple>, probe: seq<Tuple>, t: Tuple, split: Partitioner, n: nat)
    ensures PartRows(build, probe + [t], split, n) ==
            PartRows(build, probe, split, n) + OnlyIf(split(t.0) < n, multiset(PairsWith(ValuesOf(build, t.0), t.1)))
  {
    if n > 0 {
      var p, m := n - 1, multiset(PairsWith(ValuesOf(build, t.0), t.1));
      ProbeAddsOnce(build, probe, t, split, p);
      ProbeStep(build, probe, t, split, p);
      SumBags(PartRows(build, probe, split, p), OnlyIf(split(t.0) < p, m),
              multiset(KeyJoin(Part(build, split, p), Part(probe, split, p))), OnlyIf(split(t.0) == p, m));
      OneOf(split(t.0), p, m);
    }
  }

  lemma ProbeStep(build: seq<Tuple>, probe: seq<Tuple>, t: Tuple, split: Partitioner, p: nat)
    ensures multiset(KeyJoin(Part(build, split, p), Part(probe + [t], split, p))) ==
            multiset(KeyJoin(Part(build, split, p), Part(probe, split, p))) +
            OnlyIf(split(t.0) == p, multiset(PairsWith(ValuesOf(build, t.0), t.1)))
  {
    assert (probe + [t])[..|probe|] == probe;
    var part := Part(probe, split, p);
    if split(t.0) == p {
      assert (part + [t])[..|part|] == part;
      PartHasValues(build, split, t.0);
    }
  }

  lemma KeyJoinGrows(build: seq<Tuple>, probe: seq<Tuple>, t: Tuple)
    ensures multiset(KeyJoin(build, probe + [t])) ==
            multiset(KeyJoin(build, probe)) + multiset(PairsWith(ValuesOf(build, t.0), t.1))
  {
    assert (probe + [t])[..|probe|] == probe;
    Bag(KeyJoin(build, probe), PairsWith(ValuesOf(build, t.0), t.1));
  }

  lemma JoinsGrowAlike(build: seq<Tuple>, probe: seq<Tuple>, t: Tuple, split: Partitioner, count: nat)
    requires split(t.0) < count && PartRows(build, probe, split, count) == multiset(KeyJoin(build, probe))
    ensures PartRows(build, probe + [t], split, count) == multiset(KeyJoin(build, probe + [t]))
  {
    ProbeAddsOnce(build, probe, t, split, count);
    KeyJoinGrows(build, probe, t);
  }

  /** Joining partition by partition gives the rows of the plain join, however keys are spread over
      any number of partitions. */
  lemma {:induction false} PartitionsJoin(build: seq<Tuple>, probe: seq<Tuple>, split: Partitioner, count: nat)
    requires forall k: I64 :: split(k) < count
    ensures PartRows(build, probe, split, count) == multiset(KeyJoin(build, probe))
  {
    if probe == [] {
      NoProbeNoRows(build, split, count);
    } else {
      var init, last := probe[..|probe| - 1], probe[|probe| - 1];
      PartitionsJoin(build, init, split, count);
      JoinsGrowAlike(build, init, last, split, count);
      assert probe == init + [last];
    }
  }

  class HybridHashJoin {
    const count: nat
    var buildParts: seq<seq<Tuple>>
    var probeParts: seq<seq<Tuple>>
    /** The tuples added, in order. */
    ghost var build: seq<Tuple>
    ghost var probe: seq<Tuple>

    ghost predicate Valid()
      reads this
    {
      count > 0 && IsParted(buildParts, build, count) && IsParted(probeParts, probe, count)
    }

    constructor (count: nat)
      requires count > 0
      ensures Valid() && build == [] && probe == []
    {
      this.count, build, probe := count, [], [];
      buildParts, probeParts := seq(count, _ => []), seq(count, _ => []);
    }

    method AddBuild(key: I64, value: I64)
      requires Valid()
      modifies this`buildParts, this`build
      ensures Valid() && build == old(build) + [(key, value)]
    {
      var p := PartitionOf(key, count);
      PartedNext(buildParts, build, count, (key, value));
      buildParts := buildParts[p := buildParts[p] + [(key, value)]];
      build := build + [(key, value)];
    }

    method AddProbe(key: I64, value: I64)
      requires Valid()
      modifies this`probeParts, this`probe
      ensures Valid() && probe == old(probe) + [(key, value)]
    {
      var p := PartitionOf(key, count);
      PartedNext(probeParts, probe, count, (key, value));
      probeParts := probeParts[p := probeParts[p] + [(key, value)]];
      probe := probe + [(key, value)];
    }

    /** Partition by partition. */
    method JoinParts(ghost build: seq<Tuple>, ghost probe: seq<Tuple>) returns (results: seq<Tuple>)
      requires count > 0 && IsParted(buildParts, build, count) && IsParted(probeParts, probe, count)
      ensures results == PartJoins(build, probe, ByHash(count), count)
    {
      results := [];
      for p := 0 to count
        invariant results == PartJoins(build, probe, ByHash(count), p)
      {
        assert buildParts[p] == Part(build, ByHash(count), p) && probeParts[p] == Part(probe, ByHash(count), p);
        var rows := JoinPart(buildParts[p], probeParts[p]);
        results := results + rows;
      }
    }

    /** The rows of the plain equi-join of everything added; the partitions are used up. */
    method Execute() returns (results: seq<Tuple>)
      requires Valid()
      modifies this
      ensures multiset(results) == multiset(KeyJoin(old(build), old(probe)))
      ensures Valid() && build == [] && probe == []
    {
      results := JoinParts(build, probe);
      PartRowsAre(build, probe, ByHash(count), count);
      PartitionsJoin(build, probe, ByHash(count), count);
      build, probe := [], [];
      buildParts, probeParts := seq(count, _ => []), seq(count, _ => []);
    }
  }

  ghost predicate IsParted(parts: seq<seq<Tuple>>, ts: seq<Tuple>, count: nat)
    requires count > 0
  {
    |parts| == count && forall p :: 0 <= p < count ==> parts[p] == Part(ts, ByHash(count), p)
  }

  lemma PartedNext(parts: seq<seq<Tuple>>, ts: seq<Tuple>, count: nat, t: Tuple)
    requires count > 0 && IsParted(parts, ts, count)
    ensures var p := PartitionOf(t.0, count); IsParted(parts[p := parts[p] + [t]], ts + [t], count)
  {
    assert (ts + [t])[..|ts|] == ts;
  }

  /** One partition: a table of the build values by key, then the probe. */
  method JoinPart(build: seq<Tuple>, probe: seq<Tuple>) returns (rows: seq<Tuple>)
    ensures rows == KeyJoin(build, probe)
  {
    var table: map<I64, seq<I64>> := map[];
    for i := 0 to |build|
      invariant forall k: I64 :: (if k in table then table[k] else []) == ValuesOf(build[..i], k)
    {
      assert build[..i + 1][..i] == build[..i];
      var (key, value) := build[i];
      table := table[key := (if key in table then table[key] else []) + [value]];
    }
    assert build[..|build|] == build;
    rows := [];
    for i := 0 to |probe|
      invariant rows == KeyJoin(build, probe[..i])
    {
      assert probe[..i + 1][..i] == probe[..i];
      var (key, value) := probe[i];
      assert (if key in table then table[key] else []) == ValuesOf(build, key);
      if key in table {
        rows := rows + PairsWith(table[key], value);
      } else {
        assert PairsWith([], value) == [];
      }
    }
    assert probe[..|probe|] == probe;
  }
}
