/** Walks, cycles and reachability in a finite directed graph of component names,
    given as the set of its edges. */
module Walks {

  type Edges = set<(string, string)>

  /** Every step of the walk is an edge; a single name is a walk of no steps. */
  ghost predicate Walk(g: Edges, p: seq<string>) {
    |p| >= 1 && forall i :: 0 <= i < |p| - 1 ==> (p[i], p[i + 1]) in g
  }

  ghost predicate Cycle(g: Edges, p: seq<string>) {
    Walk(g, p) && |p| >= 2 && p[0] == p[|p| - 1]
  }

  ghost predicate Acyclic(g: Edges) {
    forall p :: !Cycle(g, p)
  }

  ghost predicate CycleThrough(g: Edges, n: string) {
    exists p :: Cycle(g, p) && p[0] == n
  }

  /** Some walk, possibly of no steps, leads from a name of `from` to `target`. */
  ghost predicate Reaches(g: Edges, from: seq<string>, target: string) {
    exists p :: Walk(g, p) && p[0] in from && p[|p| - 1] == target
  }

  /** A set that holds every successor of its members holds the end of every walk it starts. */
  lemma {:induction false} ClosedSetKeepsWalk(g: Edges, closed: set<string>, p: seq<string>)
    requires forall x, y :: x in closed && (x, y) in g ==> y in closed
    requires Walk(g, p) && p[0] in closed
    ensures p[|p| - 1] in closed
    decreases |p|
  {
    if |p| > 1 {
      assert (p[0], p[1]) in g;
      ClosedSetKeepsWalk(g, closed, p[1..]);
    }
  }

  /** A closed walk can be started at any of its names. */
  lemma Rotate(g: Edges, p: seq<string>, i: nat)
    requires Cycle(g, p) && i < |p|
    ensures CycleThrough(g, p[i])
  {
    if i == |p| - 1 {
      assert p[0] == p[i];
    } else {
      var q := p[i..] + p[1..i + 1];
      assert |q| == |p|;
      forall k | 0 <= k < |q| - 1
        ensures (q[k], q[k + 1]) in g
      {
        var n := |p| - i;
        if k < n - 1 {
          assert q[k] == p[i + k] && q[k + 1] == p[i + k + 1];
        } else {
          assert q[k] == p[k - n + 1];
          assert q[k + 1] == p[k - n + 2];
        }
      }
      assert Cycle(g, q) && q[0] == p[i];
    }
  }

  /** A cycle that avoids `n` uses only edges that do not touch it. */
  lemma CycleAvoiding(g: Edges, g': Edges, n: string, p: seq<string>)
    requires forall e :: e in g' && e !in g ==> e.0 == n || e.1 == n
    requires Cycle(g', p) && n !in p
    ensures Cycle(g, p)
  {
    forall i | 0 <= i < |p| - 1
      ensures (p[i], p[i + 1]) in g
    {
      assert (p[i], p[i + 1]) in g';
      assert p[i] in p && p[i + 1] in p;
    }
  }

  /** A cycle of the changed graph that the old one did not have runs through the edited name:
      so the changed graph is acyclic exactly when no cycle runs through that name. */
  lemma NewCyclesPassThroughEdited(g: Edges, g': Edges, n: string)
    requires Acyclic(g)
    requires forall e :: e in g' && e !in g ==> e.0 == n || e.1 == n
    ensures Acyclic(g') <==> !CycleThrough(g', n)
  {
    if !Acyclic(g') {
      var p :| Cycle(g', p);
      if n in p {
        var i :| 0 <= i < |p| && p[i] == n;
        Rotate(g', p, i);
      } else {
        CycleAvoiding(g, g', n, p);
      }
    }
  }

  lemma CycleHasEdge(g: Edges, p: seq<string>)
    requires Cycle(g, p)
    ensures g != {}
  {
    assert (p[0], p[1]) in g;
  }

  lemma NoEdgesNoCycle(g: Edges)
    requires g == {}
    ensures Acyclic(g)
  {
    forall p
      ensures !Cycle(g, p)
    {
      if Cycle(g, p) {
        CycleHasEdge(g, p);
      }
    }
  }

  lemma FewerEdgesStayAcyclic(g: Edges, g': Edges)
    requires Acyclic(g) && g' <= g
    ensures Acyclic(g')
  {
    forall p | Cycle(g', p)
      ensures false
    {
      assert Cycle(g, p);
    }
  }

  /** A cycle through `n` is an edge out of `n` followed by a walk back to it. */
  lemma CycleIsReturn(g: Edges, n: string, next: seq<string>)
    requires forall y :: y in next <==> (n, y) in g
    ensures CycleThrough(g, n) <==> Reaches(g, next, n)
  {
    if CycleThrough(g, n) {
      var p :| Cycle(g, p) && p[0] == n;
      assert (p[0], p[1]) in g;
      assert Walk(g, p[1..]) && p[1..][0] in next;
    }
    if Reaches(g, next, n) {
      var p :| Walk(g, p) && p[0] in next && p[|p| - 1] == n;
      ReturnIsCycle(g, n, p);
    }
  }

  lemma ReturnIsCycle(g: Edges, n: string, p: seq<string>)
    requires Walk(g, p) && (n, p[0]) in g && p[|p| - 1] == n
    ensures Cycle(g, [n] + p)
  {
    var q := [n] + p;
    forall i | 0 <= i < |q| - 1
      ensures (q[i], q[i + 1]) in g
    {
      if i > 0 {
        assert q[i] == p[i - 1] && q[i + 1] == p[i];
      }
    }
  }
}
