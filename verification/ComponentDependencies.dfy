/** What the components of one application wait on, and the search that refuses an
    edit which would make them wait on each other in a cycle. */
module ComponentDependencies {
  import opened Options
  import opened Walks

  /** What a component waits on by its own declarations, and the outputs it offers. */
  datatype Deps = Deps(dependsOn: seq<string>, inputs: seq<string>, outputs: seq<string>)

  type Application = map<string, Deps>

  // ---------------------------------------------------------------- the graph

  ghost function DeclaredWaits(all: Application): Edges {
    set x, d | x in all && d in all[x].dependsOn :: (x, d)
  }

  /** An input waits on every component that offers the output it names. */
  ghost function DataWaits(all: Application): set<(string, string, string)> {
    set x, i, y | x in all && i in all[x].inputs && y in all && i in all[y].outputs :: (x, i, y)
  }

  /** The full waits-on graph: declared dependencies and inputs fed by outputs. */
  ghost function WaitsOn(all: Application): Edges {
    DeclaredWaits(all) + set w | w in DataWaits(all) :: (w.0, w.2)
  }

  /** A component waits on what it names, and on every component that offers what it takes. */
  lemma WaitsOnIff(all: Application, x: string, y: string)
    ensures (x, y) in WaitsOn(all) <==>
            x in all && (y in all[x].dependsOn || (y in all && exists o :: o in all[x].inputs && o in all[y].outputs))
  {
    if x in all && y in all && exists o :: o in all[x].inputs && o in all[y].outputs {
      var o :| o in all[x].inputs && o in all[y].outputs;
      assert (x, o, y) in DataWaits(all);
    }
    if (x, y) in WaitsOn(all) && (x, y) !in DeclaredWaits(all) {
      var w :| w in DataWaits(all) && (x, y) == (w.0, w.2);
    }
  }

  /** The owner map holds one owner of every offered output. Which one, where several
      components offer it, depends on the order in which the components are visited. */
  ghost predicate ValidOwners(all: Application, owners: map<string, string>) {
    && (forall o :: o in owners ==> owners[o] in all && o in all[owners[o]].outputs)
    && (forall y, o :: y in all && o in all[y].outputs ==> o in owners)
  }

  /** The input waits the search sees with a given owner map. */
  ghost function SearchedData(all: Application, owners: map<string, string>): set<(string, string, string)> {
    set x, i | x in all && i in all[x].inputs && i in owners :: (x, i, owners[i])
  }

  ghost function SearchedWaits(all: Application, owners: map<string, string>): Edges {
    DeclaredWaits(all) + set w | w in SearchedData(all, owners) :: (w.0, w.2)
  }

  /** No input names an output that two components offer. */
  ghost predicate SingleOwner(all: Application) {
    forall x, i, y, z | x in all && i in all[x].inputs && y in all && z in all ::
      i in all[y].outputs && i in all[z].outputs ==> y == z
  }

  ghost function AnyOwners(all: Application): (owners: map<string, string>)
    ensures ValidOwners(all, owners)
  {
    var offered := set y, o | y in all && o in all[y].outputs :: o;
    map o | o in offered :: var y :| y in all && o in all[y].outputs; y
  }

  lemma SingleOwnerSeesAll(all: Application, owners: map<string, string>)
    requires ValidOwners(all, owners) && SingleOwner(all)
    ensures SearchedData(all, owners) == DataWaits(all)
    ensures SearchedWaits(all, owners) == WaitsOn(all)
  {
    forall w | w in DataWaits(all)
      ensures w in SearchedData(all, owners)
    {
      assert owners[w.1] == w.2;
    }
  }

  ghost function OwnersWith(all: Application, z: string, o: string): (owners: map<string, string>)
    requires z in all && o in all[z].outputs
    ensures ValidOwners(all, owners) && o in owners && owners[o] == z
  {
    AnyOwners(all)[o := z]
  }

  /** The search sees every wait whatever the visiting order exactly when no input
      names an output with two owners. */
  lemma SearchSeesEveryWaitIff(all: Application)
    ensures SingleOwner(all) <==>
            forall owners | ValidOwners(all, owners) :: SearchedData(all, owners) == DataWaits(all)
  {
    if SingleOwner(all) {
      forall owners | ValidOwners(all, owners)
        ensures SearchedData(all, owners) == DataWaits(all)
      {
        SingleOwnerSeesAll(all, owners);
      }
    } else {
      var x, i, y, z :| x in all && i in all[x].inputs && y in all && z in all &&
        i in all[y].outputs && i in all[z].outputs && y != z;
      var owners := OwnersWith(all, z, i);
      assert (x, i, y) in DataWaits(all) && (x, i, y) !in SearchedData(all, owners);
    }
  }

  // ---------------------------------------------------------------- the search

  function Successors(edges: map<string, seq<string>>, x: string): seq<string> {
    if x in edges then edges[x] else []
  }

  ghost function EdgeSet(edges: map<string, seq<string>>): Edges {
    set x, y | x in edges && y in edges[x] :: (x, y)
  }

  ghost function Universe(edges: map<string, seq<string>>, from: seq<string>): set<string> {
    (set x, y | x in edges && y in edges[x] :: y) + set x | x in from
  }

  /** The names already visited by one search, shared by all its recursive calls. */
  class Seen {
    var names: set<string>
    constructor ()
      ensures names == {}
    {
      names := {};
    }
  }

  /** Every name visited between `before` and `after` leads only to visited names, none the target. */
  ghost predicate Exhausted(g: Edges, before: set<string>, after: set<string>, target: string) {
    forall x, y :: x in after - before && (x, y) in g ==> y in after && y != target
  }

  method DependsOnPath(edges: map<string, seq<string>>, from: seq<string>, target: string, seen: Seen)
    returns (path: Option<seq<string>>)
    modifies seen
    ensures old(seen.names) <= seen.names
    ensures path.Some? ==>
              && Walk(EdgeSet(edges), path.value)
              && path.value[0] in from && path.value[|path.value| - 1] == target
    ensures path.None? ==>
              && AllVisited(from, seen.names, target)
              && Exhausted(EdgeSet(edges), old(seen.names), seen.names, target)
    ensures old(seen.names) == {} ==> (path.None? <==> !Reaches(EdgeSet(edges), from, target))
    decreases |Universe(edges, from) - seen.names|
  {
    hide EdgeSet, Universe, Successors;
    ghost var g := EdgeSet(edges);
    ghost var before := seen.names;
    for k := 0 to |from|
      invariant before <= seen.names
      invariant AllVisited(from[..k], seen.names, target)
      invariant Exhausted(g, before, seen.names, target)
    {
      var next := from[k];
      assert from[..k + 1] == from[..k] + [next];
      if next == target {
        path := Some([target]);
        assert Walk(g, path.value);
        return;
      }
      if next in seen.names {
        continue;
      }
      ghost var visited := seen.names;
      seen.names := seen.names + {next};
      MeasureDrops(edges, from, next, before, visited);
      var rest := DependsOnPath(edges, Successors(edges, next), target, seen);
      if rest.Some? {
        path := Some([next] + rest.value);
        StepThenWalk(edges, next, rest.value);
        return;
      }
      ExhaustedGrows(edges, before, visited, next, seen.names, target);
    }
    path := None;
    assert from[..|from|] == from;
    if before == {} {
      NotReached(g, from, target, seen.names);
    }
  }

  ghost predicate AllVisited(from: seq<string>, seen: set<string>, target: string) {
    forall x :: x in from ==> x in seen && x != target
  }

  lemma CardinalityWithin(a: set<string>, b: set<string>)
    requires a <= b
    ensures |a| <= |b|
  {
    assert b == a + (b - a);
  }

  /** Marking a name leaves fewer names for the recursive search to visit. */
  lemma MeasureDrops(edges: map<string, seq<string>>, from: seq<string>, next: string, before: set<string>, visited: set<string>)
    requires next in from && next !in visited && before <= visited
    ensures |Universe(edges, Successors(edges, next)) - (visited + {next})| < |Universe(edges, from) - before|
  {
    var inner := Universe(edges, Successors(edges, next)) - (visited + {next});
    var outer := Universe(edges, from) - before;
    assert inner <= outer - {next} && next in outer;
    CardinalityWithin(inner, outer - {next});
  }

  lemma StepThenWalk(edges: map<string, seq<string>>, x: string, p: seq<string>)
    requires Walk(EdgeSet(edges), p) && p[0] in Successors(edges, x)
    ensures Walk(EdgeSet(edges), [x] + p)
  {
    var g, q := EdgeSet(edges), [x] + p;
    assert (x, p[0]) in g;
    forall i | 0 <= i < |q| - 1
      ensures (q[i], q[i + 1]) in g
    {
      if i > 0 {
        assert q[i] == p[i - 1] && q[i + 1] == p[i];
      }
    }
  }

  lemma ExhaustedGrows(edges: map<string, seq<string>>, before: set<string>, visited: set<string>, next: string,
                       after: set<string>, target: string)
    requires visited + {next} <= after
    requires Exhausted(EdgeSet(edges), before, visited, target)
    requires AllVisited(Successors(edges, next), after, target)
    requires Exhausted(EdgeSet(edges), visited + {next}, after, target)
    ensures Exhausted(EdgeSet(edges), before, after, target)
  {
    forall x, y | x in after - before && (x, y) in EdgeSet(edges)
      ensures y in after && y != target
    {
      if x == next {
        assert y in Successors(edges, next);
      } else if x in visited {
      } else {
        assert x in after - (visited + {next});
      }
    }
  }

  lemma NotReached(g: Edges, from: seq<string>, target: string, seen: set<string>)
    requires AllVisited(from, seen, target)
    requires Exhausted(g, {}, seen, target)
    ensures !Reaches(g, from, target)
  {
    forall p | Walk(g, p) && p[0] in from
      ensures p[|p| - 1] != target
    {
      if |p| > 1 {
        assert Walk(g, p[..|p| - 1]);
        ClosedSetKeepsWalk(g, seen, p[..|p| - 1]);
        assert (p[|p| - 2], p[|p| - 1]) in g;
      }
    }
  }
}
