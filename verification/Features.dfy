// The closure of a list of Cargo feature roots, by depth-first search over a
// feature graph that may have cycles.
module Features {
  import opened Wrappers

  type Graph = map<string, seq<string>>

  function LocalRefs(entries: seq<string>, graph: Graph): seq<string> {
    if entries == [] then []
    else LocalRefs(entries[..|entries| - 1], graph)
         + if entries[|entries| - 1] in graph then [entries[|entries| - 1]] else []
  }

  lemma LocalRefsSnoc(entries: seq<string>, last: string, graph: Graph)
    ensures LocalRefs(entries + [last], graph) == LocalRefs(entries, graph) + if last in graph then [last] else []
  {
    assert (entries + [last])[..|entries|] == entries;
  }

  // Entry by entry, in their order: an entry that is a feature stays, any other goes.
  lemma {:induction false} LocalRefsInOrder(a: seq<string>, b: seq<string>, graph: Graph)
    ensures LocalRefs(a + b, graph) == LocalRefs(a, graph) + LocalRefs(b, graph)
  {
    if b == [] {
      assert a + b == a;
    } else {
      var front, last := b[..|b| - 1], b[|b| - 1];
      LocalRefsInOrder(a, front, graph);
      LocalRefsSnoc(a + front, last, graph);
      LocalRefsSnoc(front, last, graph);
      assert b == front + [last] && a + b == a + front + [last];
    }
  }

  lemma {:induction false} LocalRefsMembers(entries: seq<string>, graph: Graph)
    ensures forall x :: x in LocalRefs(entries, graph) <==> x in entries && x in graph
  {
    if entries != [] {
      var front, last := entries[..|entries| - 1], entries[|entries| - 1];
      LocalRefsMembers(front, graph);
      assert forall x :: x in entries <==> x in front || x == last;
    }
  }

  lemma LocalRefsOfOne(entry: string, graph: Graph)
    ensures LocalRefs([entry], graph) == if entry in graph then [entry] else []
  {
    assert [entry][..0] == [];
  }

  method LocalFeatureRefs(entries: seq<string>, graph: Graph) returns (refs: seq<string>)
    ensures refs == LocalRefs(entries, graph)
  {
    refs := [];
    for i := 0 to |entries|
      invariant refs == LocalRefs(entries[..i], graph)
    {
      assert entries[..i + 1][..i] == entries[..i];
      if entries[i] in graph { refs := refs + [entries[i]]; }
    }
    assert entries[..|entries|] == entries;
  }

  // The order of a depth-first search, with a list of what is still to be visited
  // in place of the recursion.
  function Preorder(graph: Graph, done: seq<string>, todo: seq<string>): seq<string>
    decreases |graph.Keys - set x | x in done|, |todo|
  {
    if todo == [] then done
    else if todo[0] in done || todo[0] !in graph then Preorder(graph, done, todo[1..])
    else
      MoreDone(graph, done, todo[0]);
      Preorder(graph, done + [todo[0]], LocalRefs(graph[todo[0]], graph) + todo[1..])
  }

  lemma MoreDone(graph: Graph, done: seq<string>, x: string)
    requires x in graph && x !in done
    ensures |graph.Keys - set y | y in done + [x]| < |graph.Keys - set y | y in done|
  {
    FewerLeft(graph.Keys, (set y | y in done), (set y | y in done + [x]), x);
  }

  // Whatever comes after, it is all the same to go on from one point or the other.
  ghost predicate Alike(graph: Graph, done: seq<string>, todo: seq<string>, after: seq<string>, left: seq<string>) {
    forall rest :: Preorder(graph, done, todo + rest) == Preorder(graph, after, left + rest)
  }

  // Visiting x takes the list of what is done from d to e.
  ghost predicate Visited(graph: Graph, d: seq<string>, x: string, e: seq<string>) { Alike(graph, d, [x], e, []) }

  lemma VisitedAt(graph: Graph, d: seq<string>, x: string, e: seq<string>, rest: seq<string>)
    requires Visited(graph, d, x, e)
    ensures Preorder(graph, d, [x] + rest) == Preorder(graph, e, [] + rest)
  {}

  lemma VisitedFirst(graph: Graph, d: seq<string>, x: string, e: seq<string>, t: seq<string>, rest: seq<string>)
    requires Visited(graph, d, x, e)
    ensures Preorder(graph, d, [x] + t + rest) == Preorder(graph, e, t + rest)
  {
    hide Preorder, Visited;
    VisitedAt(graph, d, x, e, t + rest);
    assert [x] + t + rest == [x] + (t + rest) && [] + (t + rest) == t + rest;
  }

  // After the first of what is left has been visited, the others are left.
  lemma OneVisited(graph: Graph, d: seq<string>, t: seq<string>, before: seq<string>,
                   list: seq<string>, i: nat, after: seq<string>)
    requires i < |list| && Alike(graph, d, t, before, list[i..]) && Visited(graph, before, list[i], after)
    ensures Alike(graph, d, t, after, list[i + 1..])
  {
    hide Preorder, Visited;
    assert list[i..] == [list[i]] + list[i + 1..];
    forall rest ensures Preorder(graph, d, t + rest) == Preorder(graph, after, list[i + 1..] + rest) {
      VisitedFirst(graph, before, list[i], after, list[i + 1..], rest);
    }
  }

  lemma Skipped(graph: Graph, d: seq<string>, x: string)
    requires x in d || x !in graph
    ensures Visited(graph, d, x, d)
  {
    forall rest ensures Preorder(graph, d, [x] + rest) == Preorder(graph, d, [] + rest) {
      assert ([x] + rest)[1..] == rest && [] + rest == rest;
    }
  }

  lemma Entered(graph: Graph, d: seq<string>, x: string)
    requires x !in d && x in graph
    ensures Alike(graph, d, [x], d + [x], LocalRefs(graph[x], graph))
  {
    var refs := LocalRefs(graph[x], graph);
    forall rest ensures Preorder(graph, d, [x] + rest) == Preorder(graph, d + [x], refs + rest) {
      assert ([x] + rest)[1..] == rest;
    }
  }

  lemma Left(graph: Graph, d: seq<string>, x: string, e: seq<string>, list: seq<string>)
    requires Alike(graph, d, [x], e, list[|list|..])
    ensures Visited(graph, d, x, e)
  {
    assert list[|list|..] == [];
  }

  // A reference from one feature of the graph to another.
  predicate Edge(graph: Graph, x: string, y: string) { x in graph && y in graph[x] && y in graph }

  ghost predicate ReachedIn(graph: Graph, roots: seq<string>, y: string, n: nat)
    decreases n
  {
    if n == 0 then y in roots && y in graph
    else exists x :: Edge(graph, x, y) && ReachedIn(graph, roots, x, n - 1)
  }

  ghost predicate Reachable(graph: Graph, roots: seq<string>, y: string) {
    exists n: nat :: ReachedIn(graph, roots, y, n)
  }

  ghost predicate NoDuplicates(s: seq<string>) { forall i, j :: 0 <= i < j < |s| ==> s[i] != s[j] }

  // Everything is a root or referred to by something before it.
  ghost predicate Grounded(graph: Graph, roots: seq<string>, ordered: seq<string>) {
    forall i :: 0 <= i < |ordered| ==>
      ordered[i] in graph && (ordered[i] in roots || Called(graph, ordered[..i], ordered[i]))
  }

  ghost predicate Called(graph: Graph, callers: seq<string>, y: string) {
    exists x :: x in callers && Edge(graph, x, y)
  }

  ghost predicate Sound(graph: Graph, roots: seq<string>, ordered: seq<string>, seen: set<string>) {
    && (forall x :: x in seen <==> x in ordered) && seen <= graph.Keys
    && NoDuplicates(ordered) && Grounded(graph, roots, ordered)
  }

  // All references of the features ys have been seen.
  ghost predicate AllDone(graph: Graph, seen: set<string>, ys: set<string>) {
    forall x, y :: x in ys && Edge(graph, x, y) ==> y in seen
  }

  lemma AllDoneGrows(graph: Graph, s: set<string>, t: set<string>, u: set<string>, x: string)
    requires s <= t <= u && AllDone(graph, t, t - s - {x}) && AllDone(graph, u, u - t)
    ensures AllDone(graph, u, u - s - {x})
  {}

  lemma LastDone(graph: Graph, s: set<string>, t: set<string>, x: string, children: seq<string>)
    requires x in graph && children == LocalRefs(graph[x], graph) && AllDone(graph, t, t - s - {x})
    requires forall j :: 0 <= j < |children| ==> children[j] in t
    ensures AllDone(graph, t, t - s)
  {
    LocalRefsMembers(graph[x], graph);
    hide LocalRefs;
  }

  class Expansion {
    const graph: Graph
    ghost const roots: seq<string>
    var ordered: seq<string>
    var seen: set<string>

    constructor (graph: Graph, ghost roots: seq<string>)
      ensures Valid() && seen == {} && ordered == [] && this.graph == graph && this.roots == roots
    {
      this.graph, this.roots := graph, roots;
      ordered, seen := [], {};
    }

    ghost predicate Valid()
      reads this
    {
      Sound(graph, roots, ordered, seen)
    }

    // Whatever is seen on the way is seen with all it refers to.
    method Visit(x: string) returns (ok: bool)
      requires Valid() && (x in roots || Called(graph, ordered, x))
      modifies this
      ensures Valid() && old(ordered) <= ordered && old(seen) <= seen
      ensures ok <==> x in graph
      ensures AllDone(graph, seen, seen - old(seen)) && (ok ==> x in seen)
      ensures !ok ==> ordered == old(ordered)
      ensures Visited(graph, old(ordered), x, ordered)
      decreases |graph.Keys - seen|
    {
      hide Sound, Called, Edge, Alike, Visited, LocalRefs, Preorder, AllDone;
      NothingNew(graph, seen);
      SeenIsInGraph(graph, roots, ordered, seen);
      if x in seen { Skipped(graph, ordered, x); return true; }
      if x !in graph { Skipped(graph, ordered, x); return false; }
      Appended(graph, roots, ordered, seen, x);
      Entered(graph, ordered, x);
      seen := seen + {x};
      ordered := ordered + [x];
      var children := LocalFeatureRefs(graph[x], graph);
      EdgesAreLocal(graph, x, children);
      assert children[0..] == children;
      for i := 0 to |children|
        invariant Valid() && old(ordered) <= ordered && old(seen) + {x} <= seen
        invariant forall j :: 0 <= j < i ==> children[j] in seen
        invariant AllDone(graph, seen, seen - old(seen) - {x})
        invariant Alike(graph, old(ordered), [x], ordered, children[i..])
      {
        FewerLeft(graph.Keys, old(seen), seen, x);
        assert children[i] in children;
        ChildIsCalled(graph, roots, ordered, seen, x, children[i]);
        ghost var before, known := ordered, seen;
        var _ := Visit(children[i]);
        AllDoneGrows(graph, old(seen), known, seen, x);
        OneVisited(graph, old(ordered), [x], before, children, i, ordered);
      }
      Left(graph, old(ordered), x, ordered, children);
      LastDone(graph, old(seen), seen, x, children);
      return true;
    }
  }

  lemma NothingNew(graph: Graph, seen: set<string>)
    ensures AllDone(graph, seen, seen - seen) && forall x :: AllDone(graph, seen + {x}, seen + {x} - seen - {x})
  {}

  lemma SeenIsInGraph(graph: Graph, roots: seq<string>, ordered: seq<string>, seen: set<string>)
    requires Sound(graph, roots, ordered, seen)
    ensures seen <= graph.Keys && forall x :: x in seen <==> x in ordered
  {}

  lemma EdgesAreLocal(graph: Graph, x: string, children: seq<string>)
    requires x in graph && children == LocalRefs(graph[x], graph)
    ensures forall y :: Edge(graph, x, y) <==> y in children
  {
    LocalRefsMembers(graph[x], graph);
  }

  lemma ChildIsCalled(graph: Graph, roots: seq<string>, ordered: seq<string>, seen: set<string>, x: string, y: string)
    requires Sound(graph, roots, ordered, seen) && x in seen && Edge(graph, x, y)
    ensures Called(graph, ordered, y) && y in graph
  {}

  lemma FewerLeft(all: set<string>, before: set<string>, after: set<string>, x: string)
    requires before + {x} <= after && x in all && x !in before
    ensures |all - after| < |all - before|
  {
    var a, b := all - after, all - before - {x};
    assert b == a + (b - a);
    assert all - before == b + {x};
  }

  lemma Appended(graph: Graph, roots: seq<string>, ordered: seq<string>, seen: set<string>, x: string)
    requires Sound(graph, roots, ordered, seen) && x !in seen && x in graph
    requires x in roots || Called(graph, ordered, x)
    ensures Sound(graph, roots, ordered + [x], seen + {x})
  {
    hide Called;
    var more := ordered + [x];
    forall i | 0 <= i < |more| ensures more[i] in graph && (more[i] in roots || Called(graph, more[..i], more[i])) {
      if i == |ordered| { assert more[..i] == ordered; } else { assert more[..i] == ordered[..i]; }
    }
  }

  // Fails exactly when a root is absent, and names the first; otherwise lists what
  // can be reached from the roots, each feature once.
  method ExpandFeatureRoots(graph: Graph, roots: seq<string>) returns (r: Result<seq<string>, string>)
    ensures r.Ok? <==> forall x :: x in roots ==> x in graph
    ensures r.Err? ==> exists i :: 0 <= i < |roots| && roots[i] == r.error && r.error !in graph
                                   && forall j :: 0 <= j < i ==> roots[j] in graph
    ensures r.Ok? ==> NoDuplicates(r.value) && forall y :: y in r.value <==> Reachable(graph, roots, y)
    ensures r.Ok? ==> Grounded(graph, roots, r.value) && r.value == Preorder(graph, [], roots)
  {
    hide Alike, Preorder;
    var e := new Expansion(graph, roots);
    AlikeAtStart(graph, roots);
    assert roots[0..] == roots;
    for i := 0 to |roots|
      invariant e.Valid() && e.graph == graph && e.roots == roots
      invariant forall j :: 0 <= j < i ==> roots[j] in e.seen && roots[j] in graph
      invariant AllDone(graph, e.seen, e.seen)
      invariant Alike(graph, [], roots, e.ordered, roots[i..])
    {
      ghost var before := e.ordered;
      var ok := e.Visit(roots[i]);
      if !ok { return Err(roots[i]); }
      OneVisited(graph, [], roots, before, roots, i, e.ordered);
    }
    assert roots[|roots|..] == [];
    AllVisited(graph, roots, e.ordered);
    forall y ensures y in e.ordered <==> Reachable(graph, roots, y) {
      if y in e.ordered {
        var i :| 0 <= i < |e.ordered| && e.ordered[i] == y;
        GroundedIsReachable(graph, roots, e.ordered, i);
      }
      if n: nat :| ReachedIn(graph, roots, y, n) {
        ReachedIsSeen(graph, roots, e.seen, y, n);
      }
    }
    return Ok(e.ordered);
  }

  lemma AlikeAtStart(graph: Graph, roots: seq<string>)
    ensures Alike(graph, [], roots, [], roots)
  {}

  lemma AllVisited(graph: Graph, roots: seq<string>, ordered: seq<string>)
    requires Alike(graph, [], roots, ordered, [])
    ensures ordered == Preorder(graph, [], roots)
  {
    var none: seq<string> := [];
    assert roots + none == roots && none + none == none;
    assert Preorder(graph, [], roots + none) == Preorder(graph, ordered, none + none);
  }

  lemma {:induction false} GroundedIsReachable(graph: Graph, roots: seq<string>, ordered: seq<string>, i: nat)
    requires Grounded(graph, roots, ordered) && i < |ordered|
    ensures Reachable(graph, roots, ordered[i])
    decreases i
  {
    if ordered[i] in roots {
      assert ReachedIn(graph, roots, ordered[i], 0);
    } else {
      var x :| x in ordered[..i] && Edge(graph, x, ordered[i]);
      var j :| 0 <= j < i && ordered[j] == x;
      GroundedIsReachable(graph, roots, ordered, j);
      var n: nat :| ReachedIn(graph, roots, x, n);
      assert ReachedIn(graph, roots, ordered[i], n + 1);
    }
  }

  lemma {:induction false} ReachedIsSeen(graph: Graph, roots: seq<string>, seen: set<string>, y: string, n: nat)
    requires forall x :: x in roots ==> x in seen
    requires forall x, z :: x in seen && Edge(graph, x, z) ==> z in seen
    requires ReachedIn(graph, roots, y, n)
    ensures y in seen
    decreases n
  {
    if n > 0 {
      var x :| Edge(graph, x, y) && ReachedIn(graph, roots, x, n - 1);
      ReachedIsSeen(graph, roots, seen, x, n - 1);
    }
  }

  // Roots in another order, or given twice, expand to the same features.
  lemma RootsAreASet(graph: Graph, roots: seq<string>, others: seq<string>, y: string)
    requires forall x :: x in roots ==> x in others
    ensures Reachable(graph, roots, y) ==> Reachable(graph, others, y)
  {
    if n: nat :| ReachedIn(graph, roots, y, n) { ReachedFromMore(graph, roots, others, y, n); }
  }

  lemma {:induction false} ReachedFromMore(graph: Graph, roots: seq<string>, others: seq<string>, y: string, n: nat)
    requires (forall x :: x in roots ==> x in others) && ReachedIn(graph, roots, y, n)
    ensures ReachedIn(graph, others, y, n)
    decreases n
  {
    if n > 0 {
      var x :| Edge(graph, x, y) && ReachedIn(graph, roots, x, n - 1);
      ReachedFromMore(graph, roots, others, x, n - 1);
    }
  }
}
