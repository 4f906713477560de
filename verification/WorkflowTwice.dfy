/** Workflows updated twice: one that the second update leaves as it is, and one in which it overwrites a
    step with another of the same name. */
module WorkflowTwice {
  import opened Options
  import opened WorkflowModel
  import opened WorkflowComparison
  import opened WorkflowCoverage
  import opened WorkflowPolicies
  import opened WorkflowReconciliation
  import opened WorkflowRecords
  import opened WorkflowLosses
  import opened WorkflowReread
  import opened WorkflowNamesakes

  lemma FirstObjects(r: ApplicationPolicy, cluster: string, namespace: string, c: Comparison)
    requires r == Topo(r.name, cluster, namespace) && Compares([], map[], [DeployStep(r.name)], [r], c)
    ensures c.stored == [] && c.existing == [] && OneDeployStep(c.gen, r, Target(cluster, namespace))
  {
    HasFirst(c.existing);
    BuiltDeployStep(c.gen, r, cluster, namespace, c.newObjs);
  }

  lemma FirstDeploys(r: ApplicationPolicy, cluster: string, namespace: string, c: Comparison)
    requires r == Topo(r.name, cluster, namespace) && Compares([], map[], [DeployStep(r.name)], [r], c)
    ensures Deploying([], map[], [DeployStep(r.name)], [r], c)
  {
    FirstObjects(r, cluster, namespace, c);
    hide Compares, Target, OneDeployStep;
  }

  lemma FirstBrings(r: ApplicationPolicy, target: string, gen: seq<Step>)
    requires OneDeployStep(gen, r, target)
    ensures Created([], gen, [r], r.name)
    ensures forall p :: p in PoliciesOf(PlacedSteps([], gen)) ==> WithinSome(AddedOf([], gen), gen, p)
  {
    DeployTargets(gen, r, target);
    AssembledPolicies([], gen);
    var s, p := gen[0], gen[0].policies[0];
    EverythingBrought(gen, s, p);
    assert PoliciesOf([]) == {};
    hide WithinSome, Within, AllTargets, PoliciesOf, PlacedSteps, AddedOf, EveryPolicyHasTarget;
    assert r in [r];
    CreatedByTopology([], gen, [r], p);
  }

  lemma FirstUndisturbed(r: ApplicationPolicy, cluster: string, namespace: string, c: Comparison)
    requires r == Topo(r.name, cluster, namespace) && Compares([], map[], [DeployStep(r.name)], [r], c)
    ensures Undisturbed([], map[], [DeployStep(r.name)], [r], c)
  {
    FirstObjects(r, cluster, namespace, c);
    FirstBrings(r, Target(cluster, namespace), c.gen);
    FirstKnown(r, cluster, namespace);
    hide Compares, Target, OneDeployStep, Table, Created, Deleted, WithinSome, PoliciesOf, PlacedSteps, AddedOf, Topo, DeployStep;
  }

  lemma FirstKnown(r: ApplicationPolicy, cluster: string, namespace: string)
    requires r == Topo(r.name, cluster, namespace)
    ensures forall w, n :: w in [DeployStep(r.name)] && w.properties.Json? && n in w.properties.policies ==> n in Table([r])
  {
    OneTopology(r, cluster, namespace);
    hide Table, Target;
  }

  lemma FirstRecords(r: ApplicationPolicy, cluster: string, namespace: string, c: Comparison)
    requires r == Topo(r.name, cluster, namespace) && Compares([], map[], [DeployStep(r.name)], [r], c)
    ensures RecordsAfter(c.stored, c.gen, c.existing, [r], map[]) == map[r.name := r]
  {
    FirstObjects(r, cluster, namespace, c);
    FirstDeploys(r, cluster, namespace, c);
    FirstUndisturbed(r, cluster, namespace, c);
    FirstBrings(r, Target(cluster, namespace), c.gen);
    var after := RecordsAfter(c.stored, c.gen, c.existing, [r], map[]);
    hide Deploying, Undisturbed, Compares, RecordsAfter, Created, Target, Topo, OneDeployStep, WithinSome, PoliciesOf, DeployStep;
    forall n
      ensures n in after <==> n == r.name
      ensures n in after ==> after[n] == r
    {
      FirstRecord(r, c, n);
    }
    OnlyEntry(after, r.name, r);
  }

  lemma OnlyEntry<K, V>(m: map<K, V>, k: K, v: V)
    requires forall n :: (n in m <==> n == k) && (n in m ==> m[n] == v)
    ensures m == map[k := v]
  {
  }

  lemma FirstRecord(r: ApplicationPolicy, c: Comparison, n: string)
    requires Deploying([], map[], [DeployStep(r.name)], [r], c) && Undisturbed([], map[], [DeployStep(r.name)], [r], c)
    requires Created(c.stored, c.gen, [r], r.name)
    ensures
      var after := RecordsAfter(c.stored, c.gen, c.existing, [r], map[]);
      (n in after <==> n == r.name) && (n in after ==> after[n] == r)
  {
    RecordAfter([], map[], [DeployStep(r.name)], [r], c, n);
    RecordAfter([], map[], [DeployStep(r.name)], [r], c, r.name);
    hide Deploying, RecordsAfter, BringsSome, Blocked, Deleted, DeployStep;
  }

  lemma FirstWritten(r: ApplicationPolicy, gen: seq<Step>, target: string)
    requires OneDeployStep(gen, r, target)
    ensures NewWorkflow([], gen, [], [DeployStep(r.name)]) == [DeployStep(r.name)]
  {
    var added, s, w := AddedOf([], gen), gen[0], DeployStep(r.name);
    EverythingBrought(gen, s, s.policies[0]);
    OneBrought(added, s);
    hide CountWithin, Within, WithinSome, AddedOf, Front, Back, Brought, StepMap, Lookup;
    NothingPlaced(added);
    PlaceOne(added, [], s);
    LookupLast([], w, r.name);
    NoneBrought(StepMap([w]));
    BringOne([], s, StepMap([w]));
    assert gen == [] + [s] && [w] == [] + [w] && [s] == [] + [s];
  }

  lemma First(r: ApplicationPolicy, cluster: string, namespace: string, workflow: seq<WorkflowStep>, db: Records, c: Comparison)
    requires r == Topo(r.name, cluster, namespace) && Reconciled([], map[], [DeployStep(r.name)], [r], workflow, db, c)
    ensures workflow == [DeployStep(r.name)] && db == map[r.name := r]
  {
    FirstObjects(r, cluster, namespace, c);
    FirstRecords(r, cluster, namespace, c);
    FirstWritten(r, c.gen, Target(cluster, namespace));
    hide Compares, NewWorkflow, OneDeployStep, Target, DeployStep, After;
  }

  /** A first update stores the generated step and its policy; a second one changes nothing. */
  method UpdateTwice(r: ApplicationPolicy, cluster: string, namespace: string) returns (ds: Datastore)
    requires r == Topo(r.name, cluster, namespace)
    ensures ds.workflow == Some([DeployStep(r.name)]) && ds.records == map[r.name := r]
  {
    hide Reconciled, Compares, Target, Topo;
    ds := new Datastore(Some([]), map[]);
    ghost var c := UpdateEnvWorkflow(ds, [DeployStep(r.name)], [r]);
    ghost var workflow, db := ds.workflow.value, ds.records;
    First(r, cluster, namespace, workflow, db, c);
    ghost var c' := UpdateEnvWorkflow(ds, [DeployStep(r.name)], [r]);
    Second(r, cluster, namespace, workflow, db, c, ds.workflow.value, ds.records, c');
  }

  lemma Second(r: ApplicationPolicy, cluster: string, namespace: string, workflow: seq<WorkflowStep>, db: Records, c: Comparison,
               workflow': seq<WorkflowStep>, db': Records, c': Comparison)
    requires r == Topo(r.name, cluster, namespace) && Reconciled([], map[], [DeployStep(r.name)], [r], workflow, db, c)
    requires Reconciled(workflow, db, [DeployStep(r.name)], [r], workflow', db', c')
    ensures workflow' == [DeployStep(r.name)] && db' == map[r.name := r]
  {
    First(r, cluster, namespace, workflow, db, c);
    SecondObjects(r, cluster, namespace, c');
    FirstObjects(r, cluster, namespace, c);
    FirstDeploys(r, cluster, namespace, c);
    FirstUndisturbed(r, cluster, namespace, c);
    FirstCovers(r, Target(cluster, namespace), c.gen);
    NoSteps();
    hide Deploying, Undisturbed, Compares, Target, Topo, PlacedWhole;
    hide AllTargets, RecordsAfter, AllKept, EveryPolicyHasTarget, OneDeployStep, Distinct;
    hide NewWorkflow, DeployStep, Clean;
    SecondUpdateKeepsAllIff([], map[], [DeployStep(r.name)], [r], workflow, db, c, c');
    SecondUpdateWritesSameIff([], map[], [DeployStep(r.name)], [r], workflow, db, c, c');
    NoneStored(c.gen, [DeployStep(r.name)]);
    assert db' == RecordsAfter(c'.stored, c'.gen, c'.existing, [r], db) by {
      AfterIs(c', [r], db);
    }
  }

  lemma NoneStored(gen: seq<Step>, envSteps: seq<WorkflowStep>)
    ensures Alike(WrittenPlaced([], gen, envSteps), WrittenStored([], gen, []))
  {
    assert WrittenStored([], gen, []) == [];
  }

  lemma AfterIs(c: Comparison, policies: seq<ApplicationPolicy>, db: Records)
    ensures RecordsAfter(c.stored, c.gen, c.existing, policies, db) == After(AllTagged(Decided(c.stored, c.gen)), c.existing, policies, db)
  {
  }

  lemma SecondObjects(r: ApplicationPolicy, cluster: string, namespace: string, c: Comparison)
    requires r == Topo(r.name, cluster, namespace)
    requires Compares([DeployStep(r.name)], map[r.name := r], [DeployStep(r.name)], [r], c)
    ensures EveryPolicyHasTarget(c.stored) && EveryPolicyHasTarget(c.gen)
  {
    OnlyRecord(c.existing, r);
    BuiltDeployStep(c.stored, r, cluster, namespace, c.oldObjs);
    BuiltDeployStep(c.gen, r, cluster, namespace, c.newObjs);
    DeployTargets(c.stored, r, Target(cluster, namespace));
    DeployTargets(c.gen, r, Target(cluster, namespace));
  }

  lemma FirstCovers(r: ApplicationPolicy, target: string, gen: seq<Step>)
    requires OneDeployStep(gen, r, target)
    ensures Distinct(AllTargets(gen)) && forall s :: s in gen ==> PlacedWhole(AddedOf([], gen), s)
  {
    DeployTargets(gen, r, target);
    SingleTargetsArePlacedWhole(AddedOf([], gen), gen[0]);
  }

  lemma NoSteps()
    ensures Distinct(AllTargets([])) && forall gone :: Clean(gone, [])
  {
  }

  // ---------------------------------------------------------------- a step named like another's target

  /** A deploy step of any name with one policy. */
  function StepNamed(name: string, policy: string): WorkflowStep {
    WorkflowStep(name, Deploy, Json([policy], "", "", ""))
  }

  ghost predicate DeploysTo(s: Step, name: string, policy: string, target: string) {
    && s.name == name && s.stepType == Deploy && |s.policies| == 1
    && var p := s.policies[0]; p.name == policy && p.policyType == Topology && p.targets == [target]
  }

  lemma OneCluster(cluster: string, namespace: string)
    ensures ClusterTargets([cluster], namespace) == [Target(cluster, namespace)]
  {
    assert [cluster][..0] == [] && ClusterTargets([cluster][..0], namespace) == [];
  }

  lemma TargetsDiffer(cluster: string, a: string, b: string)
    requires a != b
    ensures Target(cluster, a) != Target(cluster, b)
  {
    assert Target(cluster, a)[|cluster| + 1..] == a && Target(cluster, b)[|cluster| + 1..] == b;
  }

  /** A step `n` deploys to the first target under a policy of its own; the steps `d` and `n` are
      generated for the first and for a second target. */
  datatype Naming = Naming(n: string, o: string, d: string, cluster: string, a: string, b: string)

  ghost predicate Apart(x: Naming) {
    x.n != x.o && x.n != x.d && x.o != x.d && x.a != x.b
  }

  function StoredSteps(x: Naming): seq<WorkflowStep> {
    [StepNamed(x.n, x.o)]
  }

  function WantedSteps(x: Naming): seq<WorkflowStep> {
    [DeployStep(x.d), DeployStep(x.n)]
  }

  function JoinedSteps(x: Naming): seq<WorkflowStep> {
    [StepNamed(x.n, x.o), DeployStep(x.n)]
  }

  function Existing(x: Naming): ApplicationPolicy {
    Topo(x.o, x.cluster, x.a)
  }

  function Generated(x: Naming): seq<ApplicationPolicy> {
    [Topo(x.d, x.cluster, x.a), Topo(x.n, x.cluster, x.b)]
  }

  function Db(x: Naming): Records {
    map[x.o := Existing(x)]
  }

  ghost predicate NamesakeSteps(x: Naming, stored: seq<Step>, gen: seq<Step>) {
    && |stored| == 1 && DeploysTo(stored[0], x.n, x.o, Target(x.cluster, x.a))
    && |gen| == 2 && DeploysTo(gen[0], x.d, x.d, Target(x.cluster, x.a)) && DeploysTo(gen[1], x.n, x.n, Target(x.cluster, x.b))
  }

  lemma NamesakeObjects(x: Naming, c: Comparison)
    requires Apart(x) && Compares(StoredSteps(x), Db(x), WantedSteps(x), Generated(x), c)
    ensures c.existing == [Existing(x)] && NamesakeSteps(x, c.stored, c.gen)
  {
    OneCluster(x.cluster, x.a);
    OneCluster(x.cluster, x.b);
    OnlyRecord(c.existing, Existing(x));
    OneTopology(Existing(x), x.cluster, x.a);
    BuiltTwo(c.gen, Topo(x.d, x.cluster, x.a), Topo(x.n, x.cluster, x.b), c.newObjs);
    KnownOne(x.o, c.oldObjs.Keys);
    hide Target, Table, Known;
    BuiltOne(c.stored, StepNamed(x.n, x.o), c.oldObjs, x.o);
  }

  lemma DeployedTarget(s: Step, name: string, policy: string, target: string)
    requires DeploysTo(s, name, policy, target)
    ensures TargetsOf(s.stepType, s.policies) == [target]
    ensures forall ts :: CountWithin(ts, Deploy, s.policies) == if target in ts then 1 else 0
  {
    var p := s.policies[0];
    assert s.policies == [p] && [p][..0] == [];
    assert TargetsOf(s.stepType, s.policies) == [] + [target];
  }

  lemma NamesakeTargets(x: Naming, stored: seq<Step>, gen: seq<Step>)
    requires Apart(x) && NamesakeSteps(x, stored, gen)
    ensures AllTargets(stored) == [Target(x.cluster, x.a)] && AllTargets(gen) == [Target(x.cluster, x.a), Target(x.cluster, x.b)]
    ensures Target(x.cluster, x.a) != Target(x.cluster, x.b)
  {
    TargetsDiffer(x.cluster, x.a, x.b);
    hide Target;
    var s, g, h := stored[0], gen[0], gen[1];
    DeployedTarget(s, x.n, x.o, Target(x.cluster, x.a));
    DeployedTarget(g, x.d, x.d, Target(x.cluster, x.a));
    DeployedTarget(h, x.n, x.n, Target(x.cluster, x.b));
    hide TargetsOf, CountWithin, DeploysTo;
    assert stored == [s] && stored[..0] == [] && gen == [g, h] && gen[..1] == [g] && [g][..0] == [];
    assert AllTargets(stored) == AllTargets(stored[..0]) + TargetsOf(s.stepType, s.policies);
    assert AllTargets([g]) == AllTargets([g][..0]) + TargetsOf(g.stepType, g.policies);
    assert AllTargets(gen) == AllTargets([g]) + TargetsOf(h.stepType, h.policies);
  }

  /** Nothing is gone, and the second target is added. */
  lemma NamesakeVerdicts(x: Naming, stored: seq<Step>, gen: seq<Step>)
    requires Apart(x) && NamesakeSteps(x, stored, gen)
    ensures GoneOf(stored, gen) == {} && AddedOf(stored, gen) == {Target(x.cluster, x.b)}
    ensures OldVerdict(GoneOf(stored, gen), stored[0], Keep) == Keep
    ensures CountWithin(AddedOf(stored, gen), Deploy, gen[0].policies) == 0
    ensures CountWithin(AddedOf(stored, gen), Deploy, gen[1].policies) == 1
  {
    NamesakeTargets(x, stored, gen);
    DeployedTarget(stored[0], x.n, x.o, Target(x.cluster, x.a));
    DeployedTarget(gen[0], x.d, x.d, Target(x.cluster, x.a));
    DeployedTarget(gen[1], x.n, x.n, Target(x.cluster, x.b));
    hide Target, AllTargets, TargetsOf, CountWithin;
    var a, b := Target(x.cluster, x.a), Target(x.cluster, x.b);
    assert multiset([a])[a] == 1;
  }

  /** The first update writes the stored step and the generated one that has its name. */
  lemma NamesakeWritten(x: Naming, stored: seq<Step>, gen: seq<Step>)
    requires Apart(x) && NamesakeSteps(x, stored, gen)
    ensures NewWorkflow(stored, gen, StoredSteps(x), WantedSteps(x)) == JoinedSteps(x)
  {
    NamesakeVerdicts(x, stored, gen);
    var gone, added, s, g, h := GoneOf(stored, gen), AddedOf(stored, gen), stored[0], gen[0], gen[1];
    NamesakePlaced(added, g, h);
    NamesakeFound(stored, gone, s, h, StepNamed(x.n, x.o), DeployStep(x.d), DeployStep(x.n));
    hide StepNamed, DeployStep, DeploysTo, Target, CountWithin, OldVerdict, AllTargets, Gone, Added, Brought, Retained, StepMap, Front, Back;
    assert stored == [s] && gen == [g, h];
  }

  lemma NamesakePlaced(added: set<string>, g: Step, h: Step)
    requires g.stepType == Deploy && h.stepType == Deploy
    requires CountWithin(added, Deploy, g.policies) == 0 && CountWithin(added, Deploy, h.policies) == 1
    ensures Front(added, [g, h]) == [] && Back(added, [g, h]) == [h]
  {
    hide CountWithin, Front, Back;
    NothingPlaced(added);
    PlaceNone(added, [], g);
    PlaceOne(added, [g], h);
    assert [g, h] == [g] + [h] && [g] == [] + [g];
  }

  lemma NamesakeFound(stored: seq<Step>, gone: set<string>, s: Step, h: Step, u: WorkflowStep, v: WorkflowStep, w: WorkflowStep)
    requires s.name == u.name == h.name == w.name != v.name && OldVerdict(gone, s, Keep) == Keep
    ensures Brought([h], StepMap([v, w])) == [w] && Brought([], StepMap([v, w])) == []
    ensures Retained(gone, stored, [s], StepMap([u])) == [u]
  {
    hide OldVerdict, Brought, StepMap, Lookup;
    LookupLast([v], w, w.name);
    LookupLast([], u, u.name);
    assert [v, w] == [v] + [w] && [u] == [] + [u] && [h] == [] + [h] && [s][..0] == [];
    NoneBrought(StepMap([v, w]));
    BringOne([], h, StepMap([v, w]));
  }

  /** Placed steps of one policy bring it. */
  lemma SinglePlacedBrought(stored: seq<Step>, gen: seq<Step>)
    requires forall s :: s in gen ==> |s.policies| <= 1
    ensures forall p :: p in PoliciesOf(PlacedSteps(stored, gen)) ==> WithinSome(AddedOf(stored, gen), gen, p)
  {
    var added := AddedOf(stored, gen);
    BroughtAreWanted(added, gen);
    forall p | p in PoliciesOf(PlacedSteps(stored, gen))
      ensures WithinSome(added, gen, p)
    {
      var s :| s in PlacedSteps(stored, gen) && p in s.policies;
      assert s in gen && CountWithin(added, s.stepType, s.policies) > 0;
      assert s.policies == [p] && [p][..0] == [];
    }
  }

  lemma NamesakeDeploys(x: Naming, c: Comparison)
    requires Apart(x) && Compares(StoredSteps(x), Db(x), WantedSteps(x), Generated(x), c)
    ensures Deploying(StoredSteps(x), Db(x), WantedSteps(x), Generated(x), c)
  {
    hide Compares, NamesakeSteps, Apart, StoredSteps, WantedSteps, Generated, Db, DeployOnly, OneStepPerName, TopologyOnly, OncePerName;
    NamesakeObjects(x, c);
    NamesakeInputs(x);
  }

  lemma NamesakeInputs(x: Naming)
    requires Apart(x)
    ensures DeployOnly(StoredSteps(x)) && DeployOnly(WantedSteps(x))
    ensures OneStepPerName(StoredSteps(x)) && OneStepPerName(WantedSteps(x))
    ensures TopologyOnly([Existing(x)]) && TopologyOnly(Generated(x)) && OncePerName(Generated(x))
  {
  }

  lemma NamesakeUndisturbed(x: Naming, c: Comparison)
    requires Apart(x) && Compares(StoredSteps(x), Db(x), WantedSteps(x), Generated(x), c)
    ensures Undisturbed(StoredSteps(x), Db(x), WantedSteps(x), Generated(x), c)
  {
    hide Compares, NamesakeSteps, Apart, StoredSteps, WantedSteps, Generated, Db, Existing, Table, WithinSome, PoliciesOf;
    hide PlacedSteps, AddedOf, Created, Deleted;
    NamesakeObjects(x, c);
    NamesakeShapes(x, c.stored, c.gen);
    SinglePlacedBrought(c.stored, c.gen);
    NamesakeKnown(x);
    NamesakeNotCreated(x, c.stored, c.gen);
  }

  lemma NamesakeShapes(x: Naming, stored: seq<Step>, gen: seq<Step>)
    requires NamesakeSteps(x, stored, gen)
    ensures SingleTarget(stored) && NotSharedAcross(stored)
    ensures forall s :: s in gen ==> |s.policies| <= 1 && forall p :: p in s.policies ==> |p.targets| == 1
  {
    hide Target;
  }

  lemma NamesakeKnown(x: Naming)
    requires Apart(x)
    ensures forall w, n :: w in WantedSteps(x) && w.properties.Json? && n in w.properties.policies ==> n in Table(Generated(x))
    ensures forall w, n :: w in StoredSteps(x) && w.properties.Json? && n in w.properties.policies ==> n in Table([Existing(x)])
  {
    OneTopology(Existing(x), x.cluster, x.a);
    TwoTopologies(Generated(x)[0], Generated(x)[1]);
    hide Table, Target, ClusterTargets;
  }

  lemma NamesakeNotCreated(x: Naming, stored: seq<Step>, gen: seq<Step>)
    requires Apart(x)
    ensures forall n :: n in Db(x) ==> !Created(stored, gen, Generated(x), n)
  {
    hide BringsSome;
  }

  lemma NamesakeCovers(x: Naming, stored: seq<Step>, gen: seq<Step>)
    requires Apart(x) && NamesakeSteps(x, stored, gen)
    ensures Clean(GoneOf(stored, gen), stored) && forall s :: s in gen ==> PlacedWhole(AddedOf(stored, gen), s)
    ensures Distinct(AllTargets(stored)) && Distinct(AllTargets(gen))
  {
    hide AllTargets, Target, GoneOf, AddedOf, Clean, PlacedWhole, NamesakeSteps, SingleTarget, NotSharedAcross;
    NamesakeTargets(x, stored, gen);
    NamesakeShapes(x, stored, gen);
    SingleTargetsAreClean(GoneOf(stored, gen), stored);
    forall s | s in gen
      ensures PlacedWhole(AddedOf(stored, gen), s)
    {
      SingleTargetsArePlacedWhole(AddedOf(stored, gen), s);
    }
  }

  lemma {:induction false} ClusterCount(clusters: seq<string>, namespace: string)
    ensures |ClusterTargets(clusters, namespace)| == |clusters|
  {
    if clusters != [] {
      ClusterCount(clusters[..|clusters| - 1], namespace);
    }
  }

  /** Topology policies that name clusters have targets. */
  lemma ClustersGiveTargets(steps: seq<Step>, ws: seq<WorkflowStep>, policies: seq<ApplicationPolicy>, objs: map<string, Policy>)
    requires Built(steps, ws, objs) && Describes(Table(policies), objs)
    requires forall r :: r in policies ==> r.policyType == Topology && (r.spec.TopologySpec? ==> r.spec.clusters != [])
    ensures EveryPolicyHasTarget(steps)
  {
    forall p | p in PoliciesOf(steps)
      ensures p.targets != []
    {
      var k, r := PolicyRecord(steps, ws, policies, objs, p);
      ClusterCount(r.spec.clusters, r.spec.topologyNamespace);
    }
  }

  lemma NamesakeRecords(x: Naming, c: Comparison, existing': seq<ApplicationPolicy>)
    requires Apart(x) && Compares(StoredSteps(x), Db(x), WantedSteps(x), Generated(x), c)
    requires Lists(existing', RecordsAfter(c.stored, c.gen, c.existing, Generated(x), Db(x)))
    ensures forall r :: r in existing' ==> r.policyType == Topology && r.spec.TopologySpec? && r.spec.clusters != []
  {
    NamesakeDeploys(x, c);
    NamesakeUndisturbed(x, c);
    hide Compares, Deploying, RecordsAfter, Created, Blocked, Deleted, Apart;
    forall r | r in existing'
      ensures r.policyType == Topology && r.spec.TopologySpec? && r.spec.clusters != []
    {
      RecordAfter(StoredSteps(x), Db(x), WantedSteps(x), Generated(x), c, r.name);
    }
  }

  /** Everything is kept, and both written steps come from the last of the name. */
  lemma NamesakeOverwritten(x: Naming, workflow: seq<WorkflowStep>, db: Records, c: Comparison, c': Comparison)
    requires Apart(x) && Reconciled(StoredSteps(x), Db(x), WantedSteps(x), Generated(x), workflow, db, c)
    requires Compares(workflow, db, WantedSteps(x), Generated(x), c')
    ensures workflow == JoinedSteps(x)
    ensures AllKept(GoneOf(c'.stored, c'.gen), AddedOf(c'.stored, c'.gen), c'.stored, c'.gen)
    ensures NewWorkflow(c'.stored, c'.gen, workflow, WantedSteps(x)) == [DeployStep(x.n), DeployStep(x.n)]
  {
    NamesakeJoined(x, workflow, db, c);
    NamesakeKept(x, workflow, db, c, c');
    NamesakeTracked(x, workflow, db, c, c'.oldObjs.Keys);
    assert Built(c'.stored, workflow, c'.oldObjs);
    hide Reconciled, Compares, Apart, NewWorkflow, AllKept, Built, AllTracked;
    LastOfName(c'.stored, c'.gen, StepNamed(x.n, x.o), DeployStep(x.n), WantedSteps(x), c'.oldObjs);
  }

  lemma NamesakeJoined(x: Naming, workflow: seq<WorkflowStep>, db: Records, c: Comparison)
    requires Apart(x) && Reconciled(StoredSteps(x), Db(x), WantedSteps(x), Generated(x), workflow, db, c)
    ensures workflow == JoinedSteps(x) && db == RecordsAfter(c.stored, c.gen, c.existing, Generated(x), Db(x))
  {
    NamesakeObjects(x, c);
    hide Compares, NewWorkflow, Apart, NamesakeSteps, Generated, WantedSteps, StoredSteps, JoinedSteps, Db, Existing, After;
    NamesakeWritten(x, c.stored, c.gen);
    AfterIs(c, Generated(x), Db(x));
  }

  lemma NamesakeTracked(x: Naming, workflow: seq<WorkflowStep>, db: Records, c: Comparison, keys: set<string>)
    requires Apart(x) && Reconciled(StoredSteps(x), Db(x), WantedSteps(x), Generated(x), workflow, db, c)
    ensures AllTracked(workflow, keys)
  {
    NamesakeDeploys(x, c);
    hide Compares, Deploying, NewWorkflow, Apart, Readable, Generated, WantedSteps, StoredSteps, Db, After;
    WrittenReadable(StoredSteps(x), Db(x), WantedSteps(x), Generated(x), c);
    ReadableTracked(workflow, keys);
  }

  lemma NamesakeTargeted(x: Naming, workflow: seq<WorkflowStep>, db: Records, c: Comparison, c': Comparison)
    requires Apart(x) && Reconciled(StoredSteps(x), Db(x), WantedSteps(x), Generated(x), workflow, db, c)
    requires Compares(workflow, db, WantedSteps(x), Generated(x), c')
    ensures EveryPolicyHasTarget(c'.stored) && EveryPolicyHasTarget(c'.gen)
  {
    GeneratedClusters(x);
    hide Reconciled, RecordsAfter, Apart, Built, Describes, StoredSteps, JoinedSteps, WantedSteps, Generated, Db, EveryPolicyHasTarget, OncePerName;
    NamesakeJoined(x, workflow, db, c);
    ReconciledCompares(StoredSteps(x), Db(x), WantedSteps(x), Generated(x), workflow, db, c);
    NamesakeRecords(x, c, c'.existing);
    ClustersGiveTargets(c'.stored, workflow, c'.existing, c'.oldObjs);
    ClustersGiveTargets(c'.gen, WantedSteps(x), Generated(x), c'.newObjs);
  }

  lemma GeneratedClusters(x: Naming)
    ensures forall r :: r in Generated(x) ==> r.policyType == Topology && (r.spec.TopologySpec? ==> r.spec.clusters != [])
  {
  }

  lemma NamesakeKeyed(x: Naming)
    ensures WellKeyed(Db(x))
  {
  }

  lemma ReconciledCompares(workflow: seq<WorkflowStep>, db: Records, envSteps: seq<WorkflowStep>, policies: seq<ApplicationPolicy>,
                           workflow': seq<WorkflowStep>, db': Records, c: Comparison)
    requires Reconciled(workflow, db, envSteps, policies, workflow', db', c)
    ensures Compares(workflow, db, envSteps, policies, c)
  {
    hide Compares, NewWorkflow, After;
  }

  lemma NamesakeKept(x: Naming, workflow: seq<WorkflowStep>, db: Records, c: Comparison, c': Comparison)
    requires Apart(x) && Reconciled(StoredSteps(x), Db(x), WantedSteps(x), Generated(x), workflow, db, c)
    requires Compares(workflow, db, WantedSteps(x), Generated(x), c')
    ensures AllKept(GoneOf(c'.stored, c'.gen), AddedOf(c'.stored, c'.gen), c'.stored, c'.gen)
  {
    hide Reconciled, Compares, Deploying, Undisturbed, Apart, NamesakeSteps, Generated, WantedSteps, StoredSteps, Db, Existing;
    hide EveryPolicyHasTarget, AllKept, Clean, PlacedWhole, Distinct, WellKeyed;
    ReconciledCompares(StoredSteps(x), Db(x), WantedSteps(x), Generated(x), workflow, db, c);
    NamesakeTargeted(x, workflow, db, c, c');
    NamesakeObjects(x, c);
    NamesakeDeploys(x, c);
    NamesakeUndisturbed(x, c);
    NamesakeKeyed(x);
    NamesakeCovers(x, c.stored, c.gen);
    SecondUpdateKeepsAllIff(StoredSteps(x), Db(x), WantedSteps(x), Generated(x), workflow, db, c, c');
  }

  lemma LastOfName(stored: seq<Step>, gen: seq<Step>, u: WorkflowStep, w: WorkflowStep, envSteps: seq<WorkflowStep>, objs: map<string, Policy>)
    requires u.name == w.name && Built(stored, [u, w], objs) && AllTracked([u, w], objs.Keys)
    requires AllKept(GoneOf(stored, gen), AddedOf(stored, gen), stored, gen)
    ensures NewWorkflow(stored, gen, [u, w], envSteps) == [w, w]
  {
    var gone := GoneOf(stored, gen);
    NothingPlacedIfKept(stored, gen);
    KeptWritten(gone, stored, [u, w], objs, |stored|);
    assert stored[..|stored|] == stored;
    var written := Retained(gone, stored, stored, StepMap([u, w]));
    TwiceTheLast(u, w, objs.Keys, written);
    hide Retained, TrackedSteps, StepMap, Lookup, AllKept, AllTracked, Front, Back, Built;
    assert NewWorkflow(stored, gen, [u, w], envSteps) == [] + written + [] == written;
  }

  lemma TwiceTheLast(u: WorkflowStep, w: WorkflowStep, keys: set<string>, written: seq<WorkflowStep>)
    requires u.name == w.name && AllTracked([u, w], keys) && |written| == |TrackedSteps([u, w], keys)|
    requires forall k :: 0 <= k < |written| ==> written[k] == Lookup(StepMap([u, w]), TrackedSteps([u, w], keys)[k].name)
    ensures written == [w, w]
  {
    TrackedAllIff([u, w], keys);
    hide TrackedSteps, StepMap, Lookup, AllTracked;
    LookupLast([u], w, w.name);
    assert [u, w] == [u] + [w];
    assert TrackedSteps([u, w], keys)[0] == u && TrackedSteps([u, w], keys)[1] == w;
  }

  /** The first update writes a generated step beside a stored one of its name; the second keeps both
      and writes the generated one twice: the stored step is gone. */
  method OverwriteNamesake(x: Naming) returns (ds: Datastore, between: seq<WorkflowStep>)
    requires Apart(x)
    ensures between == [StepNamed(x.n, x.o), DeployStep(x.n)]
    ensures ds.workflow == Some([DeployStep(x.n), DeployStep(x.n)])
  {
    hide Reconciled, Compares, Apart;
    ds := new Datastore(Some(StoredSteps(x)), Db(x));
    assert WellKeyed(Db(x));
    ghost var c := UpdateEnvWorkflow(ds, WantedSteps(x), Generated(x));
    between := ds.workflow.value;
    ghost var db := ds.records;
    ReconciledKeyed(StoredSteps(x), Db(x), WantedSteps(x), Generated(x), between, db, c);
    ghost var c' := UpdateEnvWorkflow(ds, WantedSteps(x), Generated(x));
    NamesakeRun(x, between, db, c, ds.workflow.value, ds.records, c');
  }

  lemma ReconciledKeyed(workflow: seq<WorkflowStep>, db: Records, envSteps: seq<WorkflowStep>, policies: seq<ApplicationPolicy>,
                        workflow': seq<WorkflowStep>, db': Records, c: Comparison)
    requires Reconciled(workflow, db, envSteps, policies, workflow', db', c) && WellKeyed(db)
    ensures WellKeyed(db')
  {
    AfterKeyed(AllTagged(Decided(c.stored, c.gen)), c.existing, policies, db);
  }

  lemma NamesakeRun(x: Naming, workflow: seq<WorkflowStep>, db: Records, c: Comparison,
                    workflow': seq<WorkflowStep>, db': Records, c': Comparison)
    requires Apart(x) && Reconciled(StoredSteps(x), Db(x), WantedSteps(x), Generated(x), workflow, db, c)
    requires Reconciled(workflow, db, WantedSteps(x), Generated(x), workflow', db', c')
    ensures workflow == JoinedSteps(x) && workflow' == [DeployStep(x.n), DeployStep(x.n)]
  {
    NamesakeOverwritten(x, workflow, db, c, c');
  }
}
