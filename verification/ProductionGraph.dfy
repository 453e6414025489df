/** Reachability over a job's flat edge list: the search of production/store.go
    against the mathematical notion of a path, and what keeps the graph acyclic. */
module ProductionGraph {
  import opened ProductionTypes

  ghost predicate Linked(edges: seq<Edge>, a: Id, b: Id) {
    exists e :: e in edges && e.from == a && e.to == b
  }

  /** via lists the nodes visited after a; the last of them is b. */
  ghost predicate Walk(edges: seq<Edge>, a: Id, via: seq<Id>, b: Id)
    decreases |via|
  {
    if via == [] then a == b else Linked(edges, a, via[0]) && Walk(edges, via[0], via[1..], b)
  }

  ghost predicate HasPath(edges: seq<Edge>, a: Id, b: Id) {
    exists via :: Walk(edges, a, via, b)
  }

  /** No walk of one or more edges returns to where it started. */
  ghost predicate Acyclic(edges: seq<Edge>) {
    forall a, via :: Walk(edges, a, via, a) ==> via == []
  }

  /** Every edge of small is, endpoints taken, an edge of big. */
  ghost predicate Covers(big: seq<Edge>, small: seq<Edge>) {
    forall e :: e in small ==> Linked(big, e.from, e.to)
  }

  lemma Stay(edges: seq<Edge>, a: Id)
    ensures HasPath(edges, a, a)
  {
    assert Walk(edges, a, [], a);
  }

  lemma {:induction false} WalkConcat(edges: seq<Edge>, a: Id, p: seq<Id>, b: Id, q: seq<Id>, c: Id)
    requires Walk(edges, a, p, b) && Walk(edges, b, q, c)
    ensures Walk(edges, a, p + q, c)
    decreases |p|
  {
    if p == [] {
      assert p + q == q;
    } else {
      WalkConcat(edges, p[0], p[1..], b, q, c);
      assert (p + q)[1..] == p[1..] + q;
    }
  }

  lemma PathConcat(edges: seq<Edge>, a: Id, b: Id, c: Id)
    requires HasPath(edges, a, b) && HasPath(edges, b, c)
    ensures HasPath(edges, a, c)
  {
    var p :| Walk(edges, a, p, b);
    var q :| Walk(edges, b, q, c);
    WalkConcat(edges, a, p, b, q, c);
  }

  lemma Hop(edges: seq<Edge>, a: Id, b: Id, c: Id)
    requires Linked(edges, a, b) && HasPath(edges, b, c)
    ensures HasPath(edges, a, c)
  {
    var p :| Walk(edges, b, p, c);
    assert ([b] + p)[1..] == p;
    assert Walk(edges, a, [b] + p, c);
  }

  lemma {:induction false} WalkCovered(big: seq<Edge>, small: seq<Edge>, a: Id, via: seq<Id>, b: Id)
    requires Covers(big, small) && Walk(small, a, via, b)
    ensures Walk(big, a, via, b)
    decreases |via|
  {
    if via != [] {
      WalkCovered(big, small, via[0], via[1..], b);
    }
  }

  /** Dropping edges never creates a cycle. */
  lemma SubgraphAcyclic(big: seq<Edge>, small: seq<Edge>)
    requires Acyclic(big) && Covers(big, small)
    ensures Acyclic(small)
  {
    forall a, via | Walk(small, a, via, a)
      ensures via == []
    {
      WalkCovered(big, small, a, via, a);
    }
  }

  /** Reachability reads endpoints only: ids and result labels are irrelevant. */
  lemma LabelsIrrelevant(edges: seq<Edge>, other: seq<Edge>, a: Id, b: Id)
    requires |edges| == |other|
    requires forall i :: 0 <= i < |edges| ==> edges[i].from == other[i].from && edges[i].to == other[i].to
    ensures HasPath(edges, a, b) <==> HasPath(other, a, b)
    ensures Acyclic(edges) <==> Acyclic(other)
  {
    SameEndpointsCover(edges, other);
    SameEndpointsCover(other, edges);
    if via :| Walk(edges, a, via, b) { WalkCovered(other, edges, a, via, b); }
    if via :| Walk(other, a, via, b) { WalkCovered(edges, other, a, via, b); }
    if Acyclic(edges) { SubgraphAcyclic(edges, other); }
    if Acyclic(other) { SubgraphAcyclic(other, edges); }
  }

  lemma SameEndpointsCover(big: seq<Edge>, small: seq<Edge>)
    requires |big| == |small|
    requires forall i :: 0 <= i < |big| ==> big[i].from == small[i].from && big[i].to == small[i].to
    ensures Covers(big, small)
  {
    forall e | e in small
      ensures Linked(big, e.from, e.to)
    {
      var i :| 0 <= i < |small| && small[i] == e;
      assert big[i] in big;
    }
  }

  /** A walk over one more edge either avoids it or passes through its ends. */
  lemma {:induction false} SplitAtNewEdge(edges: seq<Edge>, e: Edge, a: Id, via: seq<Id>, b: Id)
    requires Walk(edges + [e], a, via, b)
    ensures Walk(edges, a, via, b) || (HasPath(edges, a, e.from) && HasPath(edges, e.to, b))
    decreases |via|
  {
    if via != [] {
      SplitAtNewEdge(edges, e, via[0], via[1..], b);
      if Linked(edges, a, via[0]) {
        if !Walk(edges, via[0], via[1..], b) { Hop(edges, a, via[0], e.from); }
      } else {
        assert a == e.from && via[0] == e.to;
        Stay(edges, a);
        if Walk(edges, via[0], via[1..], b) { assert HasPath(edges, e.to, b); }
      }
    }
  }

  /** The exact condition AddEdge tests: on an acyclic graph a new edge closes a
      cycle if and only if its head already reaches its tail. */
  lemma NewEdgeClosesCycle(edges: seq<Edge>, e: Edge)
    requires Acyclic(edges)
    ensures Acyclic(edges + [e]) <==> !HasPath(edges, e.to, e.from)
  {
    if HasPath(edges, e.to, e.from) {
      var p :| Walk(edges, e.to, p, e.from);
      assert Covers(edges + [e], edges) by {
        forall x | x in edges ensures Linked(edges + [e], x.from, x.to) { assert x in edges + [e]; }
      }
      WalkCovered(edges + [e], edges, e.to, p, e.from);
      assert e in edges + [e];
      assert ([e.to] + p)[1..] == p;
      assert Walk(edges + [e], e.from, [e.to] + p, e.from);
    } else {
      forall a, via | Walk(edges + [e], a, via, a)
        ensures via == []
      {
        SplitAtNewEdge(edges, e, a, via, a);
        if !Walk(edges, a, via, a) { PathConcat(edges, e.to, a, e.from); }
      }
    }
  }

  /** Walks do not leave a set closed under edges. */
  lemma {:induction false} ClosedTraps(edges: seq<Edge>, closed: set<Id>, a: Id, via: seq<Id>, b: Id)
    requires forall e :: e in edges && e.from in closed ==> e.to in closed
    requires a in closed && Walk(edges, a, via, b)
    ensures b in closed
    decreases |via|
  {
    if via != [] { ClosedTraps(edges, closed, via[0], via[1..], b); }
  }

  lemma NoPathOut(edges: seq<Edge>, closed: set<Id>, a: Id, b: Id)
    requires forall e :: e in edges && e.from in closed ==> e.to in closed
    requires a in closed && b !in closed
    ensures !HasPath(edges, a, b)
  {
    if via :| Walk(edges, a, via, b) { ClosedTraps(edges, closed, a, via, b); }
  }

  lemma EdgeLinks(edges: seq<Edge>, e: Edge)
    requires e in edges
    ensures Linked(edges, e.from, e.to)
  {
  }

  ghost function Nodes(edges: seq<Edge>, start: Id): (nodes: set<Id>)
    ensures start in nodes && forall e :: e in edges ==> e.to in nodes
  {
    if edges == [] then {start} else {edges[0].to} + Nodes(edges[1..], start)
  }

  lemma ReachNext(edges: seq<Edge>, a: Id, b: Id, c: Id)
    requires HasPath(edges, a, b) && Linked(edges, b, c)
    ensures HasPath(edges, a, c)
  {
    Stay(edges, c);
    Hop(edges, b, c, c);
    PathConcat(edges, a, b, c);
  }

  /** The depth-first search with an explicit stack and a seen set. */
  method Reaches(edges: seq<Edge>, start: Id, target: Id) returns (found: bool)
    ensures found <==> HasPath(edges, start, target)
  {
    hide HasPath, Linked, Nodes;
    Stay(edges, start);
    if start == target { return true; }
    var seen := {start};
    var stack := [start];
    ghost var expanded := {};
    ghost var nodes := Nodes(edges, start);
    while |stack| > 0
      invariant start in seen && target !in seen && seen <= nodes
      invariant forall x :: x in seen ==> HasPath(edges, start, x)
      invariant forall i :: 0 <= i < |stack| ==> stack[i] in seen
      invariant forall x :: x in seen ==> x in expanded || x in stack
      invariant forall e :: e in edges && e.from in expanded ==> e.to in seen
      decreases nodes - seen, |stack|
    {
      var cur := stack[|stack| - 1];
      ghost var before, popped := seen, stack;
      stack := stack[..|stack| - 1];
      assert popped == stack + [cur];
      var i := 0;
      while i < |edges|
        invariant 0 <= i <= |edges| && before <= seen && target !in seen && seen <= nodes
        invariant forall x :: x in seen ==> HasPath(edges, start, x)
        invariant forall i :: 0 <= i < |stack| ==> stack[i] in seen
        invariant forall x :: x in seen ==> x in expanded || x in stack || x == cur
        invariant forall k :: 0 <= k < i && edges[k].from == cur ==> edges[k].to in seen
        invariant seen == before ==> |stack| < |popped|
      {
        var e := edges[i];
        if e.from == cur && e.to !in seen {
          EdgeLinks(edges, e);
          ReachNext(edges, start, cur, e.to);
          if e.to == target { return true; }
          seen := seen + {e.to};
          stack := stack + [e.to];
        }
        i := i + 1;
      }
      expanded := expanded + {cur};
    }
    found := false;
    NoPathOut(edges, seen, start, target);
  }
}
