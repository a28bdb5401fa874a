/** Iteration over a radix tree with an explicit stack of partly visited nodes. */
module ArtIteration {
  import opened Wrappers
  import opened Bytes
  import opened Lex
  import opened ArtTrie
  import opened ArtNode
  import opened ArtNodeOps
  import opened ArtRefine
  import opened ArtOrder

  type Frame = (Node, nat)

  /** A node on the stack with the number of children already visited. */
  ghost predicate FrameOk(f: Frame) {
    Sound(f.0) && !f.0.Leaf? && Peopled(Abs(f.0)) && f.1 <= |Children(f.0)|
  }

  ghost function FrameRest(f: Frame): seq<Entry>
    requires FrameOk(f)
  {
    ListedFrom(f.0, 0);
    Listed(Children(f.0)[f.1..])
  }

  ghost predicate StackOk(stack: seq<Frame>) { forall i :: 0 <= i < |stack| ==> FrameOk(stack[i]) }

  ghost function StackRest(stack: seq<Frame>): seq<Entry>
    requires StackOk(stack)
  {
    if stack == [] then [] else FrameRest(stack[|stack| - 1]) + StackRest(stack[..|stack| - 1])
  }

  lemma PushedRest(stack: seq<Frame>, f: Frame)
    requires StackOk(stack) && FrameOk(f)
    ensures StackOk(stack + [f]) && StackRest(stack + [f]) == FrameRest(f) + StackRest(stack)
  {
    assert (stack + [f])[..|stack|] == stack;
  }

  lemma PoppedRest(stack: seq<Frame>)
    requires stack != [] && StackOk(stack)
    ensures FrameOk(stack[|stack| - 1]) && StackOk(stack[..|stack| - 1])
    ensures StackRest(stack) == FrameRest(stack[|stack| - 1]) + StackRest(stack[..|stack| - 1])
  {
  }

  /** A node is its first child followed by the frame that has visited it. */
  lemma FirstFrame(n: Node)
    requires Sound(n) && !n.Leaf? && Peopled(Abs(n))
    ensures |Children(n)| > 0 && FrameOk((n, 1))
    ensures var c := Children(n)[0].1;
            Sound(c) && Peopled(Abs(c)) && c < n && Entries(Abs(n)) == Entries(Abs(c)) + FrameRest((n, 1))
  {
    FirstListed(n);
    ListedChild(n, 0);
  }

  lemma FrameAdvanced(f: Frame)
    requires FrameOk(f) && f.1 < |Children(f.0)|
    ensures Sound(Children(f.0)[f.1].1) && Peopled(Abs(Children(f.0)[f.1].1)) && FrameOk((f.0, f.1 + 1))
    ensures FrameRest(f) == Entries(Abs(Children(f.0)[f.1].1)) + FrameRest((f.0, f.1 + 1))
  {
    ListedFrom(f.0, 0);
    ListedChild(f.0, f.1);
    assert Children(f.0)[f.1..][1..] == Children(f.0)[f.1 + 1..];
  }

  lemma FrameDone(f: Frame)
    requires FrameOk(f) && f.1 == |Children(f.0)|
    ensures FrameRest(f) == []
  {
  }

  lemma Regroup(a: seq<Entry>, b: seq<Entry>, c: seq<Entry>)
    ensures (a + b) + c == a + (b + c)
  {
  }

  /** Going down to the first child and keeping the others for later loses nothing. */
  lemma DescendStep(n: Node, stack: seq<Frame>)
    requires Sound(n) && !n.Leaf? && Peopled(Abs(n)) && StackOk(stack)
    ensures |Children(n)| > 0 && StackOk(stack + [(n, 1)])
    ensures var c := Children(n)[0].1;
            && Sound(c) && Peopled(Abs(c)) && c < n
            && Entries(Abs(c)) + StackRest(stack + [(n, 1)]) == Entries(Abs(n)) + StackRest(stack)
  {
    FirstFrame(n);
    PushedRest(stack, (n, 1));
    Regroup(Entries(Abs(Children(n)[0].1)), FrameRest((n, 1)), StackRest(stack));
  }

  /** Moving the top frame past its next child takes that child's entries off the front. */
  lemma AdvanceStep(stack: seq<Frame>, f: Frame)
    requires stack != [] && StackOk(stack) && f == stack[|stack| - 1] && f.1 < |Children(f.0)|
    ensures var c := Children(f.0)[f.1].1;
            var next := stack[|stack| - 1 := (f.0, f.1 + 1)];
            && Sound(c) && Peopled(Abs(c)) && StackOk(next)
            && StackRest(stack) == Entries(Abs(c)) + StackRest(next)
  {
    var rest, g := stack[..|stack| - 1], (f.0, f.1 + 1);
    PoppedRest(stack);
    FrameAdvanced(f);
    PushedRest(rest, g);
    assert stack[|stack| - 1 := g] == rest + [g];
    Regroup(Entries(Abs(Children(f.0)[f.1].1)), FrameRest(g), StackRest(rest));
  }

  lemma PopStep(stack: seq<Frame>)
    requires stack != [] && StackOk(stack) && stack[|stack| - 1].1 == |Children(stack[|stack| - 1].0)|
    ensures StackOk(stack[..|stack| - 1]) && StackRest(stack) == StackRest(stack[..|stack| - 1])
  {
    PoppedRest(stack);
    FrameDone(stack[|stack| - 1]);
  }

// ---------------------------------------------------------------- range scans

  function Within(es: seq<Entry>, start: Key, end: Key): seq<Entry> {
    if es == [] then []
    else if !Less(es[0].0, start) && Less(es[0].0, end) then [es[0]] + Within(es[1..], start, end)
    else Within(es[1..], start, end)
  }

  lemma WithinStep(r: seq<Entry>, e: Entry, rest: seq<Entry>, start: Key, end: Key)
    ensures r + Within([e] + rest, start, end) ==
            (if !Less(e.0, start) && Less(e.0, end) then r + [e] else r) + Within(rest, start, end)
  {
    assert ([e] + rest)[1..] == rest;
  }

  lemma {:induction false} WithinExact(es: seq<Entry>, start: Key, end: Key)
    requires AscendingKeys(es)
    ensures AscendingKeys(Within(es, start, end))
    ensures forall e :: e in Within(es, start, end) <==> e in es && !Less(e.0, start) && Less(e.0, end)
  {
    if es != [] {
      WithinExact(es[1..], start, end);
      assert es == [es[0]] + es[1..];
    }
  }

  // ---------------------------------------------------------------- the iterator

  class ArtIter {
    const root: Option<Node>
    var stack: seq<Frame>
    var current: Option<Entry>
    var started: bool

    ghost predicate Valid()
      reads this
    {
      && (root.Some? ==> Sound(root.value) && Peopled(Abs(root.value)))
      && StackOk(stack) && current.None? && (!started ==> stack == [])
    }

    /** The entries still to come. */
    ghost function Rest(): seq<Entry>
      requires Valid()
      reads this
    {
      if started then StackRest(stack) else if root.Some? then Entries(Abs(root.value)) else []
    }

    constructor (root: Option<Node>)
      requires root.Some? ==> Sound(root.value) && Peopled(Abs(root.value))
      ensures Valid() && Rest() == if root.Some? then Entries(Abs(root.value)) else []
    {
      this.root := root;
      stack, current, started := [], None, false;
    }

    method Descend(node: Node)
      requires Sound(node) && Peopled(Abs(node)) && StackOk(stack)
      modifies this`stack, this`current
      ensures StackOk(stack) && current.Some?
      ensures [current.value] + StackRest(stack) == Entries(Abs(node)) + StackRest(old(stack))
    {
      var n := node;
      while !n.Leaf?
        invariant Sound(n) && Peopled(Abs(n)) && StackOk(stack)
        invariant Entries(Abs(n)) + StackRest(stack) == Entries(Abs(node)) + StackRest(old(stack))
        decreases n
      {
        DescendStep(n, stack);
        var children := IterChildren(n);
        stack := stack + [(n, 1)];
        n := children[0].1;
      }
      current := Some((n.key, n.value));
    }

    /** Yields the entries one by one. */
    method Next() returns (e: Option<Entry>)
      requires Valid()
      modifies this
      ensures Valid()
      ensures if old(Rest()) == [] then e.None? && Rest() == []
              else e.Some? && old(Rest()) == [e.value] + Rest()
    {
      if !started {
        started := true;
        if root.Some? {
          Descend(root.value);
        }
      }
      if current.Some? {
        e := current;
        current := None;
        return;
      }
      e := Resume();
    }

    /** Goes on from the top of the stack. */
    method Resume() returns (e: Option<Entry>)
      requires Valid() && started
      modifies this`stack, this`current
      ensures Valid()
      ensures if old(Rest()) == [] then e.None? && Rest() == []
              else e.Some? && old(Rest()) == [e.value] + Rest()
    {
      while stack != []
        invariant Valid() && StackRest(stack) == StackRest(old(stack))
        decreases |stack|
      {
        var top := stack[|stack| - 1];
        var children := IterChildren(top.0);
        if top.1 < |children| {
          e := Advance(children);
          return;
        }
        PopStep(stack);
        stack := stack[..|stack| - 1];
      }
      e := None;
    }

    /** Moves the top frame on and goes down into the child it passes. */
    method Advance(children: seq<(Byte, Node)>) returns (e: Option<Entry>)
      requires StackOk(stack) && stack != [] && children == Children(stack[|stack| - 1].0)
      requires stack[|stack| - 1].1 < |children|
      modifies this`stack, this`current
      ensures StackOk(stack) && current.None? && e.Some?
      ensures StackRest(old(stack)) == [e.value] + StackRest(stack)
    {
      var (node, idx) := stack[|stack| - 1];
      AdvanceStep(stack, (node, idx));
      stack := stack[|stack| - 1 := (node, idx + 1)];
      Descend(children[idx].1);
      e := current;
      current := None;
    }

    /** The remaining entries with a key in `[start, end)`. */
    method Collect(start: Key, end: Key) returns (r: seq<Entry>)
      requires Valid()
      modifies this
      ensures r == Within(old(Rest()), start, end)
    {
      r := [];
      var e := Next();
      while e.Some?
        invariant Valid() && (e.None? ==> Rest() == [])
        invariant Within(old(Rest()), start, end) ==
                  r + Within((if e.Some? then [e.value] else []) + Rest(), start, end)
        decreases |Rest()|, if e.Some? then 1 else 0
      {
        WithinStep(r, e.value, Rest(), start, end);
        if !Less(e.value.0, start) && Less(e.value.0, end) {
          r := r + [e.value];
        }
        e := Next();
      }
    }
  }
}
