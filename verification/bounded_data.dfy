/**
  The size check on a request body: boundedData of
  apps/api/src/platform-http/form-schema-http.ts, an explicit-stack walk over a parsed JSON value.
*/
module BoundedData {
  import opened Basics
  import opened CanonicalJson

  const MAX_JSON_NODES: nat := 10000
  const MAX_JSON_DEPTH: nat := 32

  predicate Container(v: Value) { v.Array? || v.Object? }

  /** The values directly inside, in order. */
  function Children(v: Value): (r: seq<Value>)
    ensures forall i :: 0 <= i < |r| ==> r[i] < v
  {
    match v
    case Array(items) => items
    case Object(members) => seq(|members|, i requires 0 <= i < |members| => members[i].value)
    case _ => []
  }

  // ---------------------------------------------------------------- what is measured

  /** Every value counts, containers and what they hold. */
  function NodeCount(v: Value): (n: nat)
    ensures n >= 1
    decreases v
  {
    1 + NodesIn(v, Children(v))
  }

  function NodesIn(v: Value, vs: seq<Value>): (n: nat)
    requires forall i :: 0 <= i < |vs| ==> vs[i] < v
    decreases v, |vs|
  {
    if vs == [] then 0 else NodesIn(v, vs[..|vs| - 1]) + NodeCount(vs[|vs| - 1])
  }

  /** How many containers are inside one another. */
  function ContainerDepth(v: Value): nat
    decreases v
  {
    if Container(v) then 1 + DepthIn(v, Children(v)) else 0
  }

  function DepthIn(v: Value, vs: seq<Value>): nat
    requires forall i :: 0 <= i < |vs| ==> vs[i] < v
    decreases v, |vs|
  {
    if vs == [] then 0 else Max(DepthIn(v, vs[..|vs| - 1]), ContainerDepth(vs[|vs| - 1]))
  }

  predicate WithinBounds(v: Value) { NodeCount(v) <= MAX_JSON_NODES && ContainerDepth(v) <= MAX_JSON_DEPTH }

  function Sum(ns: seq<nat>): nat { if ns == [] then 0 else Sum(ns[..|ns| - 1]) + ns[|ns| - 1] }

  function Largest(ns: seq<nat>): nat { if ns == [] then 0 else Max(Largest(ns[..|ns| - 1]), ns[|ns| - 1]) }

  function ItemCounts(items: seq<Value>): seq<nat> { seq(|items|, i requires 0 <= i < |items| => NodeCount(items[i])) }

  function ItemDepths(items: seq<Value>): seq<nat> { seq(|items|, i requires 0 <= i < |items| => ContainerDepth(items[i])) }

  lemma {:induction false} InnerMeasures(v: Value, vs: seq<Value>)
    requires forall i :: 0 <= i < |vs| ==> vs[i] < v
    ensures NodesIn(v, vs) == Sum(ItemCounts(vs)) && DepthIn(v, vs) == Largest(ItemDepths(vs))
    decreases |vs|
  {
    if vs != [] {
      var init := vs[..|vs| - 1];
      assert forall i :: 0 <= i < |init| ==> init[i] == vs[i];
      InnerMeasures(v, init);
      assert ItemCounts(vs)[..|vs| - 1] == ItemCounts(init) && ItemDepths(vs)[..|vs| - 1] == ItemDepths(init);
      hide NodeCount, ContainerDepth;
    }
  }

  /** The values of an object's members. */
  function MemberValues(members: seq<Member<Value>>): (r: seq<Value>)
    ensures |r| == |members| && forall i :: 0 <= i < |r| ==> r[i] == members[i].value
  {
    seq(|members|, i requires 0 <= i < |members| => members[i].value)
  }

  /** An array or object is one node and those of everything in it, one level above the deepest of it; anything else is one node, and no level. */
  lemma MeasuresMean(v: Value)
    ensures v.Array? ==> NodeCount(v) == 1 + Sum(ItemCounts(v.items)) && ContainerDepth(v) == 1 + Largest(ItemDepths(v.items))
    ensures v.Object? ==>
              NodeCount(v) == 1 + Sum(ItemCounts(MemberValues(v.members))) && ContainerDepth(v) == 1 + Largest(ItemDepths(MemberValues(v.members)))
    ensures !v.Array? && !v.Object? ==> NodeCount(v) == 1 && ContainerDepth(v) == 0
  {
    InnerMeasures(v, Children(v));
    if v.Object? { assert Children(v) == MemberValues(v.members); }
    hide ItemCounts, ItemDepths, Sum, Largest;
  }

  // ---------------------------------------------------------------- the walk

  datatype Entry = Entry(depth: nat, value: Value)

  /** The nodes that are still to be visited: what shrinks with every step. */
  function PendingNodes(stack: seq<Entry>): nat {
    if stack == [] then 0 else PendingNodes(stack[..|stack| - 1]) + NodeCount(stack[|stack| - 1].value)
  }

  /** The deepest an entry leads; a scalar is as deep as the container it is in. */
  function Reach(e: Entry): int { e.depth + if Container(e.value) then ContainerDepth(e.value) - 1 else 0 }

  predicate Shallow(stack: seq<Entry>) { forall i :: 0 <= i < |stack| ==> Reach(stack[i]) <= MAX_JSON_DEPTH }

  function ChildEntry(depth: nat, child: Value): Entry { Entry(depth + if Container(child) then 1 else 0, child) }

  function ChildEntries(depth: nat, children: seq<Value>): (r: seq<Entry>)
    ensures |r| == |children| && forall i :: 0 <= i < |r| ==> r[i] == ChildEntry(depth, children[i])
  {
    seq(|children|, i requires 0 <= i < |children| => ChildEntry(depth, children[i]))
  }

  lemma PushedNodes(stack: seq<Entry>, e: Entry)
    ensures PendingNodes(stack + [e]) == PendingNodes(stack) + NodeCount(e.value)
  {
    assert (stack + [e])[..|stack|] == stack;
  }

  lemma NodesInStep(v: Value, n: nat)
    requires 0 < n <= |Children(v)|
    ensures NodesIn(v, Children(v)[..n]) == NodesIn(v, Children(v)[..n - 1]) + NodeCount(Children(v)[n - 1])
  {
    assert Children(v)[..n][..n - 1] == Children(v)[..n - 1];
  }

  lemma ChildEntriesStep(depth: nat, children: seq<Value>, n: nat)
    requires 0 < n <= |children|
    ensures ChildEntries(depth, children[..n]) == ChildEntries(depth, children[..n - 1]) + [ChildEntry(depth, children[n - 1])]
  {
  }

  /** Pushing the first n children adds their nodes. */
  lemma {:induction false} PushedChildren(v: Value, stack: seq<Entry>, depth: nat, n: nat)
    requires n <= |Children(v)|
    ensures PendingNodes(stack + ChildEntries(depth, Children(v)[..n])) == PendingNodes(stack) + NodesIn(v, Children(v)[..n])
  {
    if n == 0 {
      assert stack + ChildEntries(depth, Children(v)[..0]) == stack;
    } else {
      hide NodeCount, PendingNodes, NodesIn, ChildEntries, Children, ChildEntry;
      var before, last := ChildEntries(depth, Children(v)[..n - 1]), ChildEntry(depth, Children(v)[n - 1]);
      PushedChildren(v, stack, depth, n - 1);
      ChildEntriesStep(depth, Children(v), n);
      assert stack + ChildEntries(depth, Children(v)[..n]) == (stack + before) + [last];
      PushedNodes(stack + before, last);
      NodesInStep(v, n);
      assert last.value == Children(v)[n - 1] by { ChildEntryValue(depth, Children(v)[n - 1]); }
    }
  }

  lemma ChildEntryValue(depth: nat, child: Value)
    ensures ChildEntry(depth, child).value == child
  {
  }

  lemma {:induction false} DepthInBound(v: Value, vs: seq<Value>, bound: nat)
    requires forall i :: 0 <= i < |vs| ==> vs[i] < v
    ensures DepthIn(v, vs) <= bound <==> forall i :: 0 <= i < |vs| ==> ContainerDepth(vs[i]) <= bound
    decreases |vs|
  {
    if vs != [] {
      DepthInBound(v, vs[..|vs| - 1], bound);
      assert forall i :: 0 <= i < |vs| - 1 ==> vs[..|vs| - 1][i] == vs[i];
    }
  }

  /** An entry within the depth leads no deeper than its children do. */
  lemma ReachThroughChildren(e: Entry)
    requires e.depth <= MAX_JSON_DEPTH
    ensures Reach(e) <= MAX_JSON_DEPTH <==> Shallow(ChildEntries(e.depth, Children(e.value)))
  {
    var children := Children(e.value);
    var entries := ChildEntries(e.depth, children);
    DepthInBound(e.value, children, MAX_JSON_DEPTH - e.depth);
    forall i | 0 <= i < |children| ensures Reach(entries[i]) == e.depth + ContainerDepth(children[i]) {
    }
  }

  /** One visit: the popped entry's own node, and its children in its place. */
  lemma Visit(rest: seq<Entry>, e: Entry)
    requires e.depth <= MAX_JSON_DEPTH
    ensures var next := rest + ChildEntries(e.depth, Children(e.value));
            && PendingNodes(rest + [e]) == 1 + PendingNodes(next)
            && (Shallow(rest + [e]) <==> Shallow(next))
  {
    var entries := ChildEntries(e.depth, Children(e.value));
    PushedNodes(rest, e);
    PushedChildren(e.value, rest, e.depth, |Children(e.value)|);
    assert Children(e.value)[..|Children(e.value)|] == Children(e.value);
    ReachThroughChildren(e);
    hide Reach;
    ShallowParts(rest, [e]);
    ShallowParts(rest, entries);
  }

  lemma ShallowParts(a: seq<Entry>, b: seq<Entry>)
    ensures Shallow(a + b) <==> Shallow(a) && Shallow(b)
  {
    hide Reach;
    if Shallow(a + b) {
      assert forall i :: 0 <= i < |a| ==> (a + b)[i] == a[i];
      assert forall i :: 0 <= i < |b| ==> (a + b)[|a| + i] == b[i];
    }
  }

  lemma {:induction false} PendingParts(a: seq<Entry>, b: seq<Entry>)
    ensures PendingNodes(a + b) == PendingNodes(a) + PendingNodes(b)
    decreases |b|
  {
    hide NodeCount;
    if b == [] {
      assert a + b == a;
    } else {
      var init, last := b[..|b| - 1], b[|b| - 1];
      PendingParts(a, init);
      assert a + b == (a + init) + [last];
      PushedNodes(a + init, last);
    }
  }

  /** The order of visits does not matter: taking any entry, and pushing its children, costs one node and reaches no deeper. */
  lemma VisitAnywhere(left: seq<Entry>, e: Entry, right: seq<Entry>)
    requires e.depth <= MAX_JSON_DEPTH
    ensures var next := left + right + ChildEntries(e.depth, Children(e.value));
            && PendingNodes(left + [e] + right) == 1 + PendingNodes(next)
            && (Shallow(left + [e] + right) <==> Shallow(next))
  {
    Visit(left + right, e);
    hide NodeCount, Reach, PendingNodes, Shallow;
    PendingParts(left + [e], right);
    PendingParts(left, [e]);
    PendingParts(left + right, [e]);
    PendingParts(left, right);
    ShallowParts(left + [e], right);
    ShallowParts(left, [e]);
    ShallowParts(left + right, [e]);
    ShallowParts(left, right);
  }

  lemma {:induction false} PopLast(stack: seq<Entry>)
    requires stack != []
    ensures stack[..|stack| - 1] + [stack[|stack| - 1]] == stack
    ensures PendingNodes(stack) >= 1
  {
    hide NodeCount;
  }

  /** An entry too deep, or one node too many, and the value is out of bounds, however much is still pending. */
  lemma TooDeep(stack: seq<Entry>)
    requires stack != [] && stack[|stack| - 1].depth > MAX_JSON_DEPTH
    ensures !Shallow(stack)
  {
    var e := stack[|stack| - 1];
    assert Container(e.value) ==> ContainerDepth(e.value) >= 1;
    assert Reach(e) > MAX_JSON_DEPTH;
  }

  /** The walk accepts a value exactly when its node count and its container depth are within their limits. */
  method CheckBounds(value: Value) returns (accepted: bool)
    ensures accepted <==> NodeCount(value) <= 10000 && ContainerDepth(value) <= 32
  {
    hide NodeCount, ContainerDepth, Reach, PendingNodes, Shallow, NodesIn, DepthIn;
    var pending := [Entry(1, value)];
    var nodes: nat := 0;
    Start(value);
    while pending != []
      invariant nodes <= MAX_JSON_NODES
      invariant WithinBounds(value) <==> nodes + PendingNodes(pending) <= MAX_JSON_NODES && Shallow(pending)
      decreases PendingNodes(pending)
    {
      PopLast(pending);
      ghost var stack := pending;
      var current := pending[|pending| - 1];
      pending := pending[..|pending| - 1];
      nodes := nodes + 1;
      if nodes > MAX_JSON_NODES || current.depth > MAX_JSON_DEPTH {
        if current.depth > MAX_JSON_DEPTH { TooDeep(stack); }
        return false;
      }
      Visit(pending, current);
      var children := Children(current.value);
      ghost var rest := pending;
      var i := 0;
      while i < |children|
        invariant 0 <= i <= |children|
        invariant pending == rest + ChildEntries(current.depth, children[..i])
      {
        assert ChildEntries(current.depth, children[..i + 1]) == ChildEntries(current.depth, children[..i]) + [ChildEntry(current.depth, children[i])];
        pending := pending + [ChildEntry(current.depth, children[i])];
        i := i + 1;
      }
      assert children[..|children|] == children;
    }
    Done();
    return true;
  }

  /** The root is at depth one whatever it is, so a scalar is as shallow as an empty container. */
  lemma Start(value: Value)
    ensures WithinBounds(value) <==> PendingNodes([Entry(1, value)]) <= MAX_JSON_NODES && Shallow([Entry(1, value)])
  {
    PushedNodes([], Entry(1, value));
    assert [] + [Entry(1, value)] == [Entry(1, value)];
    var e := Entry(1, value);
    assert Shallow([e]) <==> Reach(e) <= MAX_JSON_DEPTH by { assert [e][0] == e; }
    assert !Container(value) ==> ContainerDepth(value) == 0;
  }

  lemma Done()
    ensures PendingNodes([]) == 0 && Shallow([])
  {
  }
}
