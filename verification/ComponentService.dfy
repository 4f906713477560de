/** Creating, updating and deleting the components of one application. Each edit is
    searched only for a cycle through the edited component; the whole waits-on graph
    stays acyclic over every run all the same. */
module ComponentService {
  import opened Options
  import opened Walks
  import opened ComponentDependencies

  datatype Refusal =
    | DependsOnItself
    | NotAComponent(dep: string)
    | WaitInCycle(names: seq<string>)

  // ---------------------------------------------------------------- checkDependsOn

  method CollectOwners(all: Application) returns (owners: map<string, string>)
    ensures ValidOwners(all, owners)
  {
    owners := map[];
    var rest := all.Keys;
    while rest != {}
      invariant rest <= all.Keys
      invariant forall o :: o in owners ==> owners[o] in all && o in all[owners[o]].outputs
      invariant forall y, o :: y in all && y !in rest && o in all[y].outputs ==> o in owners
      decreases rest
    {
      var y :| y in rest;
      rest := rest - {y};
      var outputs := all[y].outputs;
      for k := 0 to |outputs|
        invariant forall o :: o in owners ==> owners[o] in all && o in all[owners[o]].outputs
        invariant forall z, o :: z in all && z !in rest && z != y && o in all[z].outputs ==> o in owners
        invariant forall o :: o in outputs[..k] ==> o in owners
      {
        owners := owners[outputs[k] := y];
      }
      assert outputs[..|outputs|] == outputs;
    }
  }

  method WaitList(deps: Deps, owners: map<string, string>) returns (list: seq<string>)
    ensures forall y :: y in list <==>
              y in deps.dependsOn || exists i :: i in deps.inputs && i in owners && owners[i] == y
  {
    list := deps.dependsOn;
    for k := 0 to |deps.inputs|
      invariant forall y :: y in list <==>
                  y in deps.dependsOn || exists i :: i in deps.inputs[..k] && i in owners && owners[i] == y
    {
      assert deps.inputs[..k + 1] == deps.inputs[..k] + [deps.inputs[k]];
      if deps.inputs[k] in owners {
        list := list + [owners[deps.inputs[k]]];
      }
    }
    assert deps.inputs[..|deps.inputs|] == deps.inputs;
  }

  method CollectEdges(all: Application, owners: map<string, string>) returns (edges: map<string, seq<string>>)
    ensures edges.Keys == all.Keys
    ensures EdgeSet(edges) == SearchedWaits(all, owners)
  {
    edges := map[];
    var rest := all.Keys;
    while rest != {}
      invariant rest <= all.Keys && edges.Keys == all.Keys - rest
      invariant forall x, y :: x in edges ==>
                  (y in edges[x] <==>
                    y in all[x].dependsOn || exists i :: i in all[x].inputs && i in owners && owners[i] == y)
      decreases rest
    {
      var x :| x in rest;
      rest := rest - {x};
      var list := WaitList(all[x], owners);
      edges := edges[x := list];
    }
    EdgesAreWaits(all, owners, edges);
  }

  lemma EdgesAreWaits(all: Application, owners: map<string, string>, edges: map<string, seq<string>>)
    requires edges.Keys == all.Keys
    requires forall x, y :: x in edges ==>
               (y in edges[x] <==>
                 y in all[x].dependsOn || exists i :: i in all[x].inputs && i in owners && owners[i] == y)
    ensures EdgeSet(edges) == SearchedWaits(all, owners)
  {
    forall e | e in EdgeSet(edges)
      ensures e in SearchedWaits(all, owners)
    {
      if e.1 !in all[e.0].dependsOn {
        var i :| i in all[e.0].inputs && i in owners && owners[i] == e.1;
        assert (e.0, i, e.1) in SearchedData(all, owners);
      }
    }
  }

  /** What the check answers, given the owner map its visiting order built. */
  ghost predicate Checked(all: Application, name: string, knownOnly: bool, owners: map<string, string>, r: Option<Refusal>)
    requires name in all
  {
    if name in all[name].dependsOn then r == Some(DependsOnItself)
    else if knownOnly && !(forall d :: d in all[name].dependsOn ==> d in all) then
      r.Some? && r.value.NotAComponent? && r.value.dep in all[name].dependsOn && r.value.dep !in all
    else
      && (r.None? <==> !CycleThrough(SearchedWaits(all, owners), name))
      && (r.Some? ==>
            && r.value.WaitInCycle?
            && Cycle(SearchedWaits(all, owners), r.value.names)
            && r.value.names[0] == name)
  }

  method CheckDependsOn(stored: Application, name: string, comp: Deps, knownOnly: bool)
    returns (r: Option<Refusal>, ghost owners: map<string, string>)
    ensures ValidOwners(stored[name := comp], owners)
    ensures Checked(stored[name := comp], name, knownOnly, owners, r)
    ensures r == Some(DependsOnItself) <==> name in comp.dependsOn
    ensures r.Some? && r.value.NotAComponent? <==>
            knownOnly && name !in comp.dependsOn && exists d :: d in comp.dependsOn && d !in stored
  {
    hide AnyOwners, SearchedWaits, ValidOwners, Cycle;
    var all := stored[name := comp];
    owners := AnyOwners(all);
    for k := 0 to |comp.dependsOn|
      invariant name !in comp.dependsOn[..k]
    {
      if comp.dependsOn[k] == name {
        return Some(DependsOnItself), owners;
      }
    }
    assert comp.dependsOn[..|comp.dependsOn|] == comp.dependsOn;
    if knownOnly {
      for k := 0 to |comp.dependsOn|
        invariant forall d :: d in comp.dependsOn[..k] ==> d in all
      {
        if comp.dependsOn[k] !in all {
          return Some(NotAComponent(comp.dependsOn[k])), owners;
        }
      }
    }
    var outputOwner := CollectOwners(all);
    owners := outputOwner;
    var edges := CollectEdges(all, outputOwner);
    var seen := new Seen();
    var path := DependsOnPath(edges, edges[name], name, seen);
    ghost var g := EdgeSet(edges);
    CycleIsReturn(g, name, edges[name]);
    if path.Some? {
      assert (name, path.value[0]) in g;
      ReturnIsCycle(g, name, path.value);
      return Some(WaitInCycle([name] + path.value)), owners;
    }
    return None, owners;
  }

  // ---------------------------------------------------------------- the operations

  /** What is shown of a component. */
  datatype Display = Display(alias: string, description: string, icon: string, labels: map<string, string>)

  datatype Component = Component(deps: Deps, main: bool, display: Display, properties: string)

  type Store = map<string, Component>

  ghost function DepsOf(s: Store): Application {
    map n | n in s :: s[n].deps
  }

  /** The outcome of the steps of a creation that lie outside the store: finding the
      component definition, decoding the traits and the properties. */
  datatype Preparation = Prepared | TypeNotSupported | TraitAlreadyExists | PropertiesInvalid

  datatype NewProperties = Unreadable | Readable(json: string)

  datatype UpdateRequest = UpdateRequest(
    alias: Option<string>, description: Option<string>, dependsOn: Option<seq<string>>, icon: Option<string>,
    labels: Option<map<string, string>>, properties: Option<NewProperties>)

  datatype Outcome =
    | Done
    | Refused(why: Refusal)
    | NotPrepared(why': Preparation)
    | AlreadyExists
    | NotExist
    | InvalidProperties
    | MainNotDeletable
    | WorkflowNotUpdated

  datatype Op =
    | Create(name: string, component: Component, preparation: Preparation, workflowUpdated: bool)
    | Update(name: string, request: UpdateRequest)
    | Delete(name: string, workflowUpdated: bool)

  function OrElse<T>(given: Option<T>, was: T): T {
    if given.Some? then given.value else was
  }

  function Redisplay(d: Display, req: UpdateRequest): Display {
    Display(OrElse(req.alias, d.alias), OrElse(req.description, d.description),
            OrElse(req.icon, d.icon), OrElse(req.labels, d.labels))
  }

  function Updated(c: Component, req: UpdateRequest): Component {
    Component(
      if req.dependsOn.Some? then c.deps.(dependsOn := req.dependsOn.value) else c.deps,
      c.main,
      Redisplay(c.display, req),
      if req.properties.Some? && req.properties.value.Readable? then req.properties.value.json else c.properties)
  }

  /** What the check may answer: with some owner map its visiting order can build. */
  ghost predicate MayAnswer(all: Application, name: string, knownOnly: bool, r: Option<Refusal>)
    requires name in all
  {
    exists owners :: ValidOwners(all, owners) && Checked(all, name, knownOnly, owners, r)
  }

  ghost predicate MayAccept(s: Store, name: string, deps: Deps, knownOnly: bool) {
    MayAnswer(DepsOf(s)[name := deps], name, knownOnly, None)
  }

  ghost predicate MayRefuse(s: Store, name: string, deps: Deps, knownOnly: bool, why: Refusal) {
    MayAnswer(DepsOf(s)[name := deps], name, knownOnly, Some(why))
  }

  /** One operation, its answer and the store it leaves. */
  ghost predicate Step(s: Store, op: Op, r: Outcome, s': Store) {
    match op
    case Create(name, c, preparation, workflowUpdated) =>
      && (r.Done? || r.WorkflowNotUpdated? <==> s' != s)
      && (r.Done? ==> workflowUpdated) && (r.WorkflowNotUpdated? ==> !workflowUpdated)
      && (s' != s ==> name !in s && preparation.Prepared? && MayAccept(s, name, c.deps, false) && s' == s[name := c])
      && (r.Refused? ==> MayRefuse(s, name, c.deps, false, r.why))
      && (r.NotPrepared? ==> r.why' == preparation != Prepared && MayAccept(s, name, c.deps, false))
      && (r.AlreadyExists? ==> name in s && preparation.Prepared? && MayAccept(s, name, c.deps, false))
      && (r.Done? || r.WorkflowNotUpdated? || r.Refused? || r.NotPrepared? || r.AlreadyExists?)
    case Update(name, req) =>
      && (r.NotExist? <==> name !in s)
      && (r.Done? ==>
            && name in s && s' == s[name := Updated(s[name], req)]
            && (req.dependsOn.Some? ==> MayAccept(s, name, Updated(s[name], req).deps, true))
            && req.properties != Some(Unreadable))
      && (!r.Done? ==> s' == s)
      && (r.Refused? ==> name in s && req.dependsOn.Some? && MayRefuse(s, name, Updated(s[name], req).deps, true, r.why))
      && (r.InvalidProperties? ==>
            && name in s && req.properties == Some(Unreadable)
            && (req.dependsOn.Some? ==> MayAccept(s, name, Updated(s[name], req).deps, true)))
      && (r.Done? || r.NotExist? || r.Refused? || r.InvalidProperties?)
    case Delete(name, workflowUpdated) =>
      && r == (if name !in s then NotExist
               else if s[name].main then MainNotDeletable
               else if workflowUpdated then Done else WorkflowNotUpdated)
      && s' == if r.Done? || r.WorkflowNotUpdated? then s - {name} else s
  }

  method Redisplayed(d: Display, req: UpdateRequest) returns (r: Display)
    ensures r == Redisplay(d, req)
  {
    r := d;
    if req.alias.Some? {
      r := r.(alias := req.alias.value);
    }
    if req.description.Some? {
      r := r.(description := req.description.value);
    }
    if req.icon.Some? {
      r := r.(icon := req.icon.value);
    }
    if req.labels.Some? {
      r := r.(labels := req.labels.value);
    }
  }

  class ApplicationComponents {
    var store: Store

    constructor ()
      ensures store == map[]
    {
      store := map[];
    }

    /** The workflows are updated once the component is stored; it stays where that fails. */
    method CreateComponent(name: string, component: Component, preparation: Preparation, workflowUpdated: bool) returns (r: Outcome)
      modifies this
      ensures Step(old(store), Create(name, component, preparation, workflowUpdated), r, store)
    {
      ghost var s := store;
      var refusal, owners := CheckDependsOn(map n | n in store :: store[n].deps, name, component.deps, false);
      assert (map n | n in store :: store[n].deps) == DepsOf(s);
      if refusal.Some? {
        return Refused(refusal.value);
      }
      if preparation != Prepared {
        return NotPrepared(preparation);
      }
      if name in store {
        return AlreadyExists;
      }
      store := store[name := component];
      return if workflowUpdated then Done else WorkflowNotUpdated;
    }

    method UpdateComponent(name: string, req: UpdateRequest) returns (r: Outcome)
      modifies this
      ensures Step(old(store), Update(name, req), r, store)
    {
      hide Checked, ValidOwners, Redisplay;
      ghost var s := store;
      if name !in store {
        return NotExist;
      }
      var component := store[name];
      var display := Redisplayed(component.display, req);
      component := component.(display := display);
      if req.dependsOn.Some? {
        var deps := component.deps.(dependsOn := req.dependsOn.value);
        var refusal, owners := CheckDependsOn(map n | n in store :: store[n].deps, name, deps, true);
        assert (map n | n in store :: store[n].deps) == DepsOf(s);
        if refusal.Some? {
          return Refused(refusal.value);
        }
        component := component.(deps := deps);
      }
      if req.properties.Some? {
        if req.properties.value.Unreadable? {
          return InvalidProperties;
        }
        component := component.(properties := req.properties.value.json);
      }
      store := store[name := component];
      return Done;
    }

    method DeleteComponent(name: string, workflowUpdated: bool) returns (r: Outcome)
      modifies this
      ensures Step(old(store), Delete(name, workflowUpdated), r, store)
      ensures name !in old(store) <==> r == NotExist
      ensures name in old(store) && old(store)[name].main <==> r == MainNotDeletable
      ensures name in old(store) && !old(store)[name].main ==> store == old(store) - {name}
      ensures r == NotExist || r == MainNotDeletable ==> store == old(store)
    {
      if name !in store {
        return NotExist;
      }
      if store[name].main {
        return MainNotDeletable;
      }
      store := store - {name};
      return if workflowUpdated then Done else WorkflowNotUpdated;
    }
  }

  // ---------------------------------------------------------------- what an operation leaves

  /** An update takes over exactly what is given, of the one component. */
  lemma UpdateTakesOver(s: Store, name: string, req: UpdateRequest, r: Outcome, s': Store)
    requires Step(s, Update(name, req), r, s') && r.Done?
    ensures name in s && s'.Keys == s.Keys && forall n :: n in s && n != name ==> s'[n] == s[n]
    ensures s'[name].deps.dependsOn == if req.dependsOn.Some? then req.dependsOn.value else s[name].deps.dependsOn
    ensures s'[name].deps.inputs == s[name].deps.inputs && s'[name].deps.outputs == s[name].deps.outputs
    ensures s'[name].main == s[name].main
    ensures s'[name].display.alias == if req.alias.Some? then req.alias.value else s[name].display.alias
    ensures s'[name].display.description == if req.description.Some? then req.description.value else s[name].display.description
    ensures s'[name].display.icon == if req.icon.Some? then req.icon.value else s[name].display.icon
    ensures s'[name].display.labels == if req.labels.Some? then req.labels.value else s[name].display.labels
    ensures match req.properties
            case None => s'[name].properties == s[name].properties
            case Some(Readable(json)) => s'[name].properties == json
            case Some(Unreadable) => false
  {
  }

  /** What is checked, and may be refused, are the requested dependencies with the stored inputs and
      outputs. */
  lemma UpdateChecksRequest(s: Store, name: string, req: UpdateRequest, r: Outcome, s': Store)
    requires Step(s, Update(name, req), r, s')
    ensures r.Refused? ==>
              && name in s && req.dependsOn.Some?
              && MayRefuse(s, name, s[name].deps.(dependsOn := req.dependsOn.value), true, r.why)
    ensures r.Done? && req.dependsOn.Some? ==>
              MayAccept(s, name, s[name].deps.(dependsOn := req.dependsOn.value), true)
  {
  }

  /** An accepted update waits on every component it asked for, each of which is stored. */
  lemma UpdateWaits(s: Store, name: string, req: UpdateRequest, r: Outcome, s': Store, d: string)
    requires Step(s, Update(name, req), r, s') && r.Done? && req.dependsOn.Some? && d in req.dependsOn.value
    ensures d in s && d != name && (name, d) in WaitsOn(DepsOf(s'))
  {
    UpdateTakesOver(s, name, req, r, s');
    UpdateChecksRequest(s, name, req, r, s');
    var deps := s[name].deps.(dependsOn := req.dependsOn.value);
    var all := DepsOf(s)[name := deps];
    var owners :| ValidOwners(all, owners) && Checked(all, name, true, owners, None);
    assert d in deps.dependsOn && d in all;
    WaitsOnIff(DepsOf(s'), name, d);
  }

  /** A created component is stored as given, beside the others as they were, and waits on what it
      names. */
  lemma CreateStores(s: Store, name: string, c: Component, preparation: Preparation, workflowUpdated: bool, r: Outcome, s': Store)
    requires Step(s, Create(name, c, preparation, workflowUpdated), r, s')
    ensures r.Done? || r.WorkflowNotUpdated? ==>
              && name !in s && preparation == Prepared && s'.Keys == s.Keys + {name} && s'[name] == c
              && (forall n :: n in s ==> s'[n] == s[n])
              && (forall d :: d in c.deps.dependsOn ==> d != name && (name, d) in WaitsOn(DepsOf(s')))
    ensures !r.Done? && !r.WorkflowNotUpdated? ==> s' == s
  {
    if r.Done? || r.WorkflowNotUpdated? {
      var all := DepsOf(s)[name := c.deps];
      var owners :| ValidOwners(all, owners) && Checked(all, name, false, owners, None);
      forall d | d in c.deps.dependsOn
        ensures d != name && (name, d) in WaitsOn(DepsOf(s'))
      {
        WaitsOnIff(DepsOf(s'), name, d);
      }
    }
  }

  // ---------------------------------------------------------------- runs

  /** The edit changes only waits into or out of the edited component. */
  lemma EditTouchesOnlyName(all: Application, name: string, deps: Deps)
    requires name in all ==> deps.outputs == all[name].outputs
    ensures forall e :: e in WaitsOn(all[name := deps]) && e !in WaitsOn(all) ==> e.0 == name || e.1 == name
  {
    var all' := all[name := deps];
    forall e | e in WaitsOn(all') && e.0 != name && e.1 != name
      ensures e in WaitsOn(all)
    {
      if e in DeclaredWaits(all') {
        assert e in DeclaredWaits(all);
      } else {
        var w :| w in DataWaits(all') && e == (w.0, w.2);
        assert w in DataWaits(all);
      }
    }
  }

  /** Searching only for a way back to the edited component decides whether the whole
      graph stays acyclic, where inputs name outputs with one owner. */
  lemma LocalSearchDecidesGlobally(all: Application, name: string, deps: Deps, knownOnly: bool,
                                   owners: map<string, string>, r: Option<Refusal>)
    requires name in all ==> deps.outputs == all[name].outputs
    requires Acyclic(WaitsOn(all)) && SingleOwner(all[name := deps])
    requires ValidOwners(all[name := deps], owners) && Checked(all[name := deps], name, knownOnly, owners, r)
    requires knownOnly ==> forall d :: d in deps.dependsOn ==> d in all[name := deps]
    ensures r.None? <==> Acyclic(WaitsOn(all[name := deps]))
  {
    var all' := all[name := deps];
    SingleOwnerSeesAll(all', owners);
    EditTouchesOnlyName(all, name, deps);
    NewCyclesPassThroughEdited(WaitsOn(all), WaitsOn(all'), name);
    if name in deps.dependsOn {
      assert (name, name) in WaitsOn(all');
      assert Cycle(WaitsOn(all'), [name, name]);
    }
  }

  lemma DeletionOnlyRemovesWaits(s: Store, name: string)
    ensures WaitsOn(DepsOf(s - {name})) <= WaitsOn(DepsOf(s))
  {
    var small, big := DepsOf(s - {name}), DepsOf(s);
    assert DeclaredWaits(small) <= DeclaredWaits(big);
    assert DataWaits(small) <= DataWaits(big);
  }

  lemma StepStaysAcyclic(s: Store, op: Op, r: Outcome, s': Store)
    requires Step(s, op, r, s')
    requires Acyclic(WaitsOn(DepsOf(s))) && SingleOwner(DepsOf(s'))
    ensures Acyclic(WaitsOn(DepsOf(s')))
  {
    match op
    case Create(name, c, _, _) =>
      if s' != s {
        AcceptedStaysAcyclic(s, name, c, false);
      }
    case Update(name, req) =>
      if r.Done? {
        if req.dependsOn.Some? {
          AcceptedStaysAcyclic(s, name, Updated(s[name], req), true);
        } else {
          assert DepsOf(s') == DepsOf(s);
        }
      }
    case Delete(name, _) =>
      if s' != s {
        DeletionOnlyRemovesWaits(s, name);
        FewerEdgesStayAcyclic(WaitsOn(DepsOf(s)), WaitsOn(DepsOf(s')));
      }
  }

  lemma AcceptedStaysAcyclic(s: Store, name: string, c: Component, knownOnly: bool)
    requires name in s ==> c.deps.outputs == s[name].deps.outputs
    requires Acyclic(WaitsOn(DepsOf(s))) && SingleOwner(DepsOf(s[name := c]))
    requires MayAccept(s, name, c.deps, knownOnly)
    ensures Acyclic(WaitsOn(DepsOf(s[name := c])))
  {
    var all' := DepsOf(s)[name := c.deps];
    assert all' == DepsOf(s[name := c]);
    var owners :| ValidOwners(all', owners) && Checked(all', name, knownOnly, owners, None);
    LocalSearchDecidesGlobally(DepsOf(s), name, c.deps, knownOnly, owners, None);
  }

  ghost predicate Run(states: seq<Store>, ops: seq<Op>, results: seq<Outcome>) {
    && |states| == |ops| + 1 == |results| + 1
    && states[0] == map[]
    && forall i :: 0 <= i < |ops| ==> Step(states[i], ops[i], results[i], states[i + 1])
  }

  /** Over every run from an empty application, nothing ever waits on itself. */
  lemma {:induction false} RunsStayAcyclic(states: seq<Store>, ops: seq<Op>, results: seq<Outcome>, k: nat)
    requires Run(states, ops, results) && k < |states|
    requires forall i :: 0 <= i < |states| ==> SingleOwner(DepsOf(states[i]))
    ensures Acyclic(WaitsOn(DepsOf(states[k])))
  {
    if k == 0 {
      NoEdgesNoCycle(WaitsOn(DepsOf(states[0])));
    } else {
      RunsStayAcyclic(states, ops, results, k - 1);
      StepStaysAcyclic(states[k - 1], ops[k - 1], results[k - 1], states[k]);
    }
  }

  /** Over every run, a main component once stored stays, and stays the main one. */
  lemma {:induction false} MainStays(states: seq<Store>, ops: seq<Op>, results: seq<Outcome>, j: nat, k: nat, name: string)
    requires Run(states, ops, results) && j <= k < |states| && name in states[j] && states[j][name].main
    ensures name in states[k] && states[k][name].main
  {
    if j < k {
      MainStays(states, ops, results, j, k - 1, name);
      assert Step(states[k - 1], ops[k - 1], results[k - 1], states[k]);
    }
  }

  // ------------------------------------------------- two owners of one output

  const UNNAMED := Display("", "", "", map[])
  const OFFER := Component(Deps([], [], ["url"]), false, UNNAMED, "")
  const TAKE := Component(Deps([], ["url"], []), false, UNNAMED, "")
  const CLOSE := Component(Deps(["c"], [], ["url"]), false, UNNAMED, "")

  const ONE: Store := map["b" := OFFER]
  const TWO: Store := ONE["c" := TAKE]
  const THREE: Store := TWO["a" := CLOSE]

  /** Where two components offer the output a third takes, a run may end with
      components that wait on each other: the search followed the other owner. */
  lemma TwoOwnersHideACycle() returns (states: seq<Store>, ops: seq<Op>, results: seq<Outcome>)
    ensures Run(states, ops, results)
    ensures !Acyclic(WaitsOn(DepsOf(states[|ops|])))
  {
    states, results := [map[], ONE, TWO, THREE], [Done, Done, Done];
    ops := [Create("b", OFFER, Prepared, true), Create("c", TAKE, Prepared, true), Create("a", CLOSE, Prepared, true)];
    FirstAccepted();
    SecondAccepted();
    ThirdAccepted();
    forall i | 0 <= i < 3
      ensures Step(states[i], ops[i], results[i], states[i + 1])
    {
      if i == 0 {
        CreationSucceeds(map[], "b", OFFER);
      } else if i == 1 {
        CreationSucceeds(ONE, "c", TAKE);
      } else {
        CreationSucceeds(TWO, "a", CLOSE);
      }
    }
    ThreeWaitInACycle();
  }

  lemma CreationSucceeds(s: Store, name: string, c: Component)
    requires name !in s && MayAccept(s, name, c.deps, false)
    ensures Step(s, Create(name, c, Prepared, true), Done, s[name := c])
  {
  }

  lemma FirstAccepted()
    ensures MayAccept(map[], "b", OFFER.deps, false)
  {
    NothingReturns(map[], "b", OFFER, map["url" := "b"]);
  }

  lemma SecondAccepted()
    ensures MayAccept(ONE, "c", TAKE.deps, false)
  {
    NothingReturns(ONE, "c", TAKE, map["url" := "b"]);
  }

  lemma ThirdAccepted()
    ensures MayAccept(TWO, "a", CLOSE.deps, false)
  {
    NothingReturns(TWO, "a", CLOSE, map["url" := "b"]);
  }

  lemma ThreeWaitInACycle()
    ensures Cycle(WaitsOn(DepsOf(THREE)), ["a", "c", "a"])
  {
    var all := DepsOf(THREE);
    assert ("c", "url", "a") in DataWaits(all);
    assert ("a", "c") in DeclaredWaits(all);
  }

  /** With the first component the only owner followed, nothing leads back to `name`. */
  lemma NothingReturns(s: Store, name: string, c: Component, owners: map<string, string>)
    requires ValidOwners(DepsOf(s)[name := c.deps], owners)
    requires name !in c.deps.dependsOn
    requires forall x :: x in s ==> name !in s[x].deps.dependsOn
    requires forall o :: o in owners && owners[o] == name ==> DepsOf(s)[name := c.deps] == map[name := c.deps] && c.deps.inputs == []
    ensures MayAccept(s, name, c.deps, false)
  {
    var all := DepsOf(s)[name := c.deps];
    var g := SearchedWaits(all, owners);
    forall p | Cycle(g, p)
      ensures p[0] != name
    {
      assert (p[|p| - 2], p[|p| - 1]) in g;
    }
    assert Checked(all, name, false, owners, None);
  }
}
