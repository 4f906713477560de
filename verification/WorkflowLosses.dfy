/** Two families of updates after which a written step names a policy that is not stored. */
module WorkflowLosses {
  import opened Options
  import opened WorkflowModel
  import opened WorkflowComparison
  import opened WorkflowCoverage
  import opened WorkflowPolicies
  import opened WorkflowReconciliation
  import opened WorkflowRecords

  lemma OnlyRecord(existing: seq<ApplicationPolicy>, r: ApplicationPolicy)
    requires Lists(existing, map[r.name := r]) && Reconcilable(r)
    ensures existing == [r]
  {
    assert r in existing;
    assert forall i :: 0 <= i < |existing| ==> existing[i] in existing && existing[i] == r;
    assert |existing| <= 1 by {
      assert |existing| > 1 ==> existing[0].name == existing[1].name;
    }
  }

  lemma PlaceOne(added: set<string>, gen: seq<Step>, s: Step)
    requires CountWithin(added, s.stepType, s.policies) == 1
    ensures Front(added, gen + [s]) == (if s.stepType == DeployCloudResource then [s] else []) + Front(added, gen)
    ensures Back(added, gen + [s]) == Back(added, gen) + if s.stepType != DeployCloudResource then [s] else []
  {
    assert (gen + [s])[..|gen|] == gen;
    assert Copies(s, 1) == [s] + Copies(s, 0) == [s];
  }

  lemma PlaceNone(added: set<string>, gen: seq<Step>, s: Step)
    requires CountWithin(added, s.stepType, s.policies) == 0
    ensures Front(added, gen + [s]) == Front(added, gen) && Back(added, gen + [s]) == Back(added, gen)
  {
    assert (gen + [s])[..|gen|] == gen && Copies(s, 0) == [];
  }

  lemma BringOne(steps: seq<Step>, s: Step, m: map<string, WorkflowStep>)
    ensures Brought(steps + [s], m) == Brought(steps, m) + [Lookup(m, s.name)]
  {
    assert (steps + [s])[..|steps|] == steps;
  }

  lemma LookupLast(ws: seq<WorkflowStep>, w: WorkflowStep, name: string)
    ensures Lookup(StepMap(ws + [w]), name) == if name == w.name then w else Lookup(StepMap(ws), name)
  {
    assert (ws + [w])[..|ws|] == ws;
  }

  lemma TrackOne(ws: seq<WorkflowStep>, w: WorkflowStep, keys: set<string>)
    requires Track(w, keys).Tracked?
    ensures TrackedSteps(ws + [w], keys) == TrackedSteps(ws, keys) + [w]
  {
    assert (ws + [w])[..|ws|] == ws;
  }

  lemma BuiltOne(steps: seq<Step>, w: WorkflowStep, objs: map<string, Policy>, key: string)
    requires Built(steps, [w], objs) && key in objs && Track(w, objs.Keys) == Tracked([key])
    ensures |steps| == 1 && steps[0].name == w.name && steps[0].stepType == w.stepType && steps[0].policies == [objs[key]]
  {
    hide Track, TrackedSteps, Objects;
    NoneTracked(objs.Keys);
    TrackOne([], w, objs.Keys);
    assert [w] == [] + [w];
    assert Follows(steps[0], w, objs);
    ObjectsFrom([key], objs);
  }

  lemma NoneTracked(keys: set<string>)
    ensures TrackedSteps([], keys) == []
  {
  }

  // ---------------------------------------------------------------- a replaced target

  function CloudStep(name: string, policy: string, env: string): WorkflowStep {
    WorkflowStep(name, DeployCloudResource, Json([], policy, env, ""))
  }

  function Binding(policy: string, e: EnvConfig): ApplicationPolicy {
    ApplicationPolicy(policy, EnvBinding, EnvBindingSpec([e]))
  }

  function TargetOf(e: EnvConfig): string {
    Target(e.cluster, e.namespace)
  }

  /** One cloud-resource step with one env-binding policy for one target. */
  ghost predicate OneCloudStep(steps: seq<Step>, policy: string, e: EnvConfig) {
    && |steps| == 1 && steps[0].stepType == DeployCloudResource
    && |steps[0].policies| == 1
    && var p := steps[0].policies[0]; p.name == policy && p.policyType == EnvBinding && p.targets == [TargetOf(e)]
  }

  lemma BuiltCloudStep(steps: seq<Step>, name: string, policy: string, e: EnvConfig, objs: map<string, Policy>)
    requires policy != "" && Built(steps, [CloudStep(name, policy, e.envName)], objs) && Describes(Table([Binding(policy, e)]), objs)
    ensures OneCloudStep(steps, policy, e) && steps[0].name == name
  {
    var key := policy + "-" + e.envName;
    assert [Binding(policy, e)][..0] == [] && [e][..0] == [];
    assert Table([Binding(policy, e)]) == WithEnvs(Table([]), policy, [e]) == map[key := Info(policy, EnvBinding, [TargetOf(e)])];
    BuiltOne(steps, CloudStep(name, policy, e.envName), objs, key);
  }

  function CloudTarget(e: EnvConfig): string {
    "c-" + TargetOf(e)
  }

  lemma CloudTargets(steps: seq<Step>, policy: string, e: EnvConfig)
    requires OneCloudStep(steps, policy, e)
    ensures AllTargets(steps) == [CloudTarget(e)] && PoliciesOf(steps) == {steps[0].policies[0]} && HasCloudStep(steps)
  {
    var s := steps[0];
    var p := s.policies[0];
    assert steps == [s] && s.policies == [p] && [s][..0] == [] && [p][..0] == [];
    CloudCached(p, e);
    assert TargetsOf(s.stepType, s.policies) == [] + [CloudTarget(e)];
    assert AllTargets(steps) == [] + TargetsOf(s.stepType, s.policies);
    assert s in steps && p in s.policies;
  }

  lemma CloudCached(p: Policy, e: EnvConfig)
    requires p.targets == [TargetOf(e)]
    ensures CacheTargets(DeployCloudResource, p.targets) == [CloudTarget(e)]
  {
    assert p.targets[1..] == [];
  }

  lemma CloudWithin(steps: seq<Step>, policy: string, e: EnvConfig, ts: set<string>)
    requires OneCloudStep(steps, policy, e) && CloudTarget(e) in ts
    ensures WithinSome(ts, steps, steps[0].policies[0]) && CountWithin(ts, DeployCloudResource, steps[0].policies) == 1
  {
    hide CloudTarget, TargetOf;
    var s, p := steps[0], steps[0].policies[0];
    CloudCached(p, e);
    assert s.policies[..0] == [];
    assert s in steps && p in s.policies && Within(ts, s.stepType, p);
  }

  lemma TaggedDiffer(a: EnvConfig, b: EnvConfig)
    requires TargetOf(a) != TargetOf(b)
    ensures CloudTarget(a) != CloudTarget(b)
  {
    assert CloudTarget(a)[2..] == TargetOf(a) && CloudTarget(b)[2..] == TargetOf(b);
  }

  /** The stored target goes and the generated one comes. */
  lemma CloudReplaced(stored: seq<Step>, gen: seq<Step>, policy: string, a: EnvConfig, b: EnvConfig)
    requires TargetOf(a) != TargetOf(b)
    requires OneCloudStep(stored, policy, a) && OneCloudStep(gen, policy, b)
    ensures WithinSome(GoneOf(stored, gen), stored, stored[0].policies[0])
    ensures CountWithin(GoneOf(stored, gen), DeployCloudResource, stored[0].policies) == 1
    ensures WithinSome(AddedOf(stored, gen), gen, gen[0].policies[0])
    ensures CountWithin(AddedOf(stored, gen), DeployCloudResource, gen[0].policies) == 1
    ensures OldVerdict(GoneOf(stored, gen), stored[0], Keep) == Delete
  {
    CloudTargets(stored, policy, a);
    CloudTargets(gen, policy, b);
    TaggedDiffer(a, b);
    hide CloudTarget, TargetOf, AllTargets, WithinSome, CountWithin;
    CloudWithin(stored, policy, a, GoneOf(stored, gen));
    CloudWithin(gen, policy, b, AddedOf(stored, gen));
  }

  lemma CloudDropped(stored: seq<Step>, gen: seq<Step>, policy: string, a: EnvConfig, b: EnvConfig)
    requires TargetOf(a) != TargetOf(b)
    requires OneCloudStep(stored, policy, a) && OneCloudStep(gen, policy, b)
    ensures DropsSome(stored, gen, policy) && !HoldsSome(stored, gen, policy)
  {
    CloudTargets(stored, policy, a);
    CloudTargets(gen, policy, b);
    CloudReplaced(stored, gen, policy, a, b);
    AssembledPolicies(stored, gen);
    hide AllTargets, CountWithin, WithinSome, PoliciesOf, TargetOf, CloudTarget, GoneOf, AddedOf, PlacedSteps, HasCloudStep;
    assert stored[0].policies[0] in PoliciesOf(stored);
  }

  lemma CloudKinds(stored: seq<Step>, gen: seq<Step>, policy: string, a: EnvConfig, b: EnvConfig)
    requires policy != "" && OneCloudStep(stored, policy, a) && OneCloudStep(gen, policy, b)
    ensures KindsAgree(stored, gen) && IsEnvBinding(stored, gen, policy)
  {
    CloudTargets(stored, policy, a);
    CloudTargets(gen, policy, b);
    hide AllTargets, PoliciesOf, TargetOf, CloudTarget, HasCloudStep;
    assert stored[0].policies[0] in PoliciesOf(stored);
  }

  lemma ReplacedIsLost(stored: seq<Step>, gen: seq<Step>, policy: string, a: EnvConfig, b: EnvConfig)
    requires policy != "" && TargetOf(a) != TargetOf(b) && Separate(stored, gen)
    requires OneCloudStep(stored, policy, a) && OneCloudStep(gen, policy, b)
    ensures policy !in RecordsAfter(stored, gen, [Binding(policy, a)], [Binding(policy, b)], map[policy := Binding(policy, a)])
  {
    CloudTargets(stored, policy, a);
    CloudTargets(gen, policy, b);
    CloudDropped(stored, gen, policy, a, b);
    CloudKinds(stored, gen, policy, a, b);
    assert policy in NamesOf([Binding(policy, a)]) by {
      assert Binding(policy, a) in [Binding(policy, a)];
    }
    hide AllTargets, PoliciesOf, TargetOf, HasCloudStep, RecordsAfter, DropsSome, HoldsSome, KindsAgree, IsEnvBinding, Binding, NamesOf, Separate;
    EnvBindingLostIff(stored, gen, [Binding(policy, a)], [Binding(policy, b)], map[policy := Binding(policy, a)], policy);
  }

  lemma ReplacedIsWritten(stored: seq<Step>, gen: seq<Step>, policy: string, a: EnvConfig, b: EnvConfig,
                          workflow: seq<WorkflowStep>, w: WorkflowStep)
    requires TargetOf(a) != TargetOf(b)
    requires OneCloudStep(stored, policy, a) && OneCloudStep(gen, policy, b) && w.name == gen[0].name
    ensures NewWorkflow(stored, gen, workflow, [w]) == [w]
  {
    hide AllTargets, CountWithin, OldVerdict, WithinSome, TargetOf, Gone, Added, Front, Back, StepMap, Brought, Retained;
    CloudReplaced(stored, gen, policy, a, b);
    var gone, added := GoneOf(stored, gen), AddedOf(stored, gen);
    var s, o := gen[0], stored[0];
    CloudPlacedAlone(added, s, w);
    RetainNone(gone, stored, o, StepMap(workflow));
    assert gen == [s] && stored == [o];
  }

  lemma CloudPlacedAlone(added: set<string>, s: Step, w: WorkflowStep)
    requires s.stepType == DeployCloudResource && CountWithin(added, s.stepType, s.policies) == 1 && w.name == s.name
    ensures Front(added, [s]) == [s] && Back(added, [s]) == []
    ensures Brought([s], StepMap([w])) == [w] && Brought([], StepMap([w])) == []
  {
    hide CountWithin, Front, Back, StepMap, Brought, Lookup;
    NothingPlaced(added);
    PlaceOne(added, [], s);
    LookupLast([], w, s.name);
    NoneBrought(StepMap([w]));
    BringOne([], s, StepMap([w]));
    assert [s] == [] + [s] && [w] == [] + [w];
  }

  lemma NothingPlaced(added: set<string>)
    ensures Front(added, []) == [] && Back(added, []) == []
  {
  }

  lemma NoneBrought(m: map<string, WorkflowStep>)
    ensures Brought([], m) == []
  {
  }

  lemma RetainNone(gone: set<string>, stored: seq<Step>, o: Step, exist: map<string, WorkflowStep>)
    requires OldVerdict(gone, o, Keep) == Delete
    ensures Retained(gone, stored, [o], exist) == []
  {
    assert [o][..0] == [];
  }

  lemma NothingElseStored(stored: seq<Step>, gen: seq<Step>, policy: string, a: EnvConfig, b: EnvConfig)
    requires policy != "" && TargetOf(a) != TargetOf(b) && Separate(stored, gen)
    requires OneCloudStep(stored, policy, a) && OneCloudStep(gen, policy, b)
    ensures RecordsAfter(stored, gen, [Binding(policy, a)], [Binding(policy, b)], map[policy := Binding(policy, a)]) == map[]
  {
    ReplacedIsLost(stored, gen, policy, a, b);
    CloudKinds(stored, gen, policy, a, b);
    var after := RecordsAfter(stored, gen, [Binding(policy, a)], [Binding(policy, b)], map[policy := Binding(policy, a)]);
    forall n
      ensures n !in after
    {
      hide RecordsAfter, KindsAgree, Separate, OneCloudStep, BringsSome, Deleted, TargetOf;
      PolicyStoredIff(stored, gen, [Binding(policy, a)], [Binding(policy, b)], map[policy := Binding(policy, a)], n);
    }
  }

  /** The only target of a cloud-resource step is replaced: the written step names the policy, which
      is no longer stored. */
  method ReplaceOnlyTarget(name: string, name': string, policy: string, a: EnvConfig, b: EnvConfig) returns (ds: Datastore)
    requires policy != "" && TargetOf(a) != TargetOf(b)
    ensures ds.workflow == Some([CloudStep(name', policy, b.envName)]) && ds.records == map[]
  {
    var workflow, envSteps := [CloudStep(name, policy, a.envName)], [CloudStep(name', policy, b.envName)];
    ds := new Datastore(Some(workflow), map[policy := Binding(policy, a)]);
    ghost var c := UpdateEnvWorkflow(ds, envSteps, [Binding(policy, b)]);
    OnlyRecord(c.existing, Binding(policy, a));
    BuiltCloudStep(c.stored, name, policy, a, c.oldObjs);
    BuiltCloudStep(c.gen, name', policy, b, c.newObjs);
    NothingElseStored(c.stored, c.gen, policy, a, b);
    ReplacedIsWritten(c.stored, c.gen, policy, a, b, workflow, envSteps[0]);
  }

  /** The next update does not find the step's policy, takes the step for a new one, and stores the
      policy again. */
  method RestoreOnNextUpdate(ds: Datastore, name: string, policy: string, b: EnvConfig)
    requires policy != "" && ds.workflow == Some([CloudStep(name, policy, b.envName)]) && ds.records == map[]
    modifies ds
    ensures ds.workflow == Some([CloudStep(name, policy, b.envName)]) && policy in ds.records
  {
    ghost var c := UpdateEnvWorkflow(ds, [CloudStep(name, policy, b.envName)], [Binding(policy, b)]);
    UnknownIsNotBuilt(c, name, policy, b);
    BuiltCloudStep(c.gen, name, policy, b, c.newObjs);
    RestoredIsStored(c.gen, policy, b);
    RestoredIsWritten(c.gen, policy, b, CloudStep(name, policy, b.envName));
  }

  lemma HasFirst<T>(s: seq<T>)
    ensures s != [] ==> exists x :: x in s
  {
    if s != [] {
      assert s[0] in s;
    }
  }

  lemma UnknownIsNotBuilt(c: Comparison, name: string, policy: string, b: EnvConfig)
    requires Compares([CloudStep(name, policy, b.envName)], map[], [CloudStep(name, policy, b.envName)], [Binding(policy, b)], c)
    ensures c.existing == [] && c.stored == []
  {
    HasFirst(c.existing);
    var w := CloudStep(name, policy, b.envName);
    assert Table([]) == map[] && c.oldObjs == map[];
    assert [w][..0] == [] && TrackedSteps([w], c.oldObjs.Keys) == TrackedSteps([w][..0], c.oldObjs.Keys) + [];
  }

  lemma RestoredIsStored(gen: seq<Step>, policy: string, b: EnvConfig)
    requires policy != "" && OneCloudStep(gen, policy, b) && Separate([], gen)
    ensures policy in RecordsAfter([], gen, [], [Binding(policy, b)], map[])
  {
    CloudTargets(gen, policy, b);
    var s, p := gen[0], gen[0].policies[0];
    EverythingBrought(gen, s, p);
    assert PoliciesOf([]) == {} && !HasCloudStep([]);
    assert policy in NamesOf([Binding(policy, b)]) by {
      assert Binding(policy, b) in [Binding(policy, b)];
    }
    hide AllTargets, PoliciesOf, WithinSome, Within, CloudTarget, TargetOf, RecordsAfter, NamesOf, Separate, AddedOf, HasCloudStep, Deleted, Binding;
    assert KindsAgree([], gen) && Created([], gen, [Binding(policy, b)], policy);
    PolicyStoredIff([], gen, [], [Binding(policy, b)], map[], policy);
  }

  lemma RestoredIsWritten(gen: seq<Step>, policy: string, b: EnvConfig, w: WorkflowStep)
    requires OneCloudStep(gen, policy, b) && w.name == gen[0].name
    ensures NewWorkflow([], gen, [w], [w]) == [w]
  {
    var added, s := AddedOf([], gen), gen[0];
    EverythingBrought(gen, s, s.policies[0]);
    OneBrought(added, s);
    hide CountWithin, Within, WithinSome, AddedOf, Front, Back, Brought, StepMap;
    CloudPlacedAlone(added, s, w);
    assert gen == [s];
  }

  // ---------------------------------------------------------------- a step removed by hand

  function DeployStep(policy: string): WorkflowStep {
    WorkflowStep(policy, Deploy, Json([policy], "", "", ""))
  }

  function Topo(policy: string, cluster: string, namespace: string): ApplicationPolicy {
    ApplicationPolicy(policy, Topology, TopologySpec([cluster], namespace))
  }

  lemma {:induction false} HeldByAll(steps: seq<Step>, s: Step, p: Policy, t: string)
    requires s in steps && p in s.policies && t in CacheTargets(s.stepType, p.targets)
    ensures t in AllTargets(steps)
  {
    var init, last := steps[..|steps| - 1], steps[|steps| - 1];
    assert steps == init + [last];
    if s == last {
      TargetsHeld(s.stepType, s.policies, p, t);
      assert t in multiset(TargetsOf(s.stepType, s.policies));
    } else {
      HeldByAll(init, s, p, t);
    }
  }

  /** Nothing is stored, so everything generated is brought. */
  lemma EverythingBrought(gen: seq<Step>, s: Step, p: Policy)
    requires s in gen && p in s.policies
    ensures Within(AddedOf([], gen), s.stepType, p) && WithinSome(AddedOf([], gen), gen, p)
  {
    forall t | t in CacheTargets(s.stepType, p.targets)
      ensures t in AddedOf([], gen)
    {
      HeldByAll(gen, s, p, t);
    }
  }

  ghost predicate TwoDeploySteps(gen: seq<Step>, p: string, q: string) {
    && |gen| == 2
    && gen[0].name == p && gen[0].stepType == Deploy && |gen[0].policies| == 1
    && gen[0].policies[0].name == p && gen[0].policies[0].policyType == Topology
    && gen[1].name == q && gen[1].stepType == Deploy && |gen[1].policies| == 1
    && gen[1].policies[0].name == q && gen[1].policies[0].policyType == Topology
  }

  lemma BuiltTwo(gen: seq<Step>, p: ApplicationPolicy, q: ApplicationPolicy, objs: map<string, Policy>)
    requires p.name != q.name && p.policyType == q.policyType == Topology && p.spec.TopologySpec? && q.spec.TopologySpec?
    requires Built(gen, [DeployStep(p.name), DeployStep(q.name)], objs) && Describes(Table([p, q]), objs)
    ensures TwoDeploySteps(gen, p.name, q.name)
    ensures gen[0].policies[0].targets == ClusterTargets(p.spec.clusters, p.spec.topologyNamespace)
    ensures gen[1].policies[0].targets == ClusterTargets(q.spec.clusters, q.spec.topologyNamespace)
  {
    var u, v := DeployStep(p.name), DeployStep(q.name);
    TwoTopologies(p, q);
    TrackDeploy(p.name, objs.Keys);
    TrackDeploy(q.name, objs.Keys);
    hide Table, Track, TrackedSteps, Objects, DeployStep;
    NoneTracked(objs.Keys);
    TrackOne([], u, objs.Keys);
    TrackOne([u], v, objs.Keys);
    assert [u, v] == [u] + [v] && [u] == [] + [u];
    FollowsDeploy(gen[0], p.name, objs);
    FollowsDeploy(gen[1], q.name, objs);
  }

  lemma TrackDeploy(n: string, keys: set<string>)
    requires n in keys
    ensures Track(DeployStep(n), keys) == Tracked([n])
  {
    KnownOne(n, keys);
  }

  lemma FollowsDeploy(s: Step, n: string, objs: map<string, Policy>)
    requires n in objs && Follows(s, DeployStep(n), objs)
    ensures s.name == n && s.stepType == Deploy && s.policies == [objs[n]]
  {
    TrackDeploy(n, objs.Keys);
    ObjectsFrom([n], objs);
  }

  lemma TwoTopologies(p: ApplicationPolicy, q: ApplicationPolicy)
    requires p.policyType == q.policyType == Topology && p.spec.TopologySpec? && q.spec.TopologySpec? && p.name != q.name
    ensures
      var table := Table([p, q]);
      && table.Keys == {p.name, q.name}
      && table[p.name] == Info(p.name, Topology, ClusterTargets(p.spec.clusters, p.spec.topologyNamespace))
      && table[q.name] == Info(q.name, Topology, ClusterTargets(q.spec.clusters, q.spec.topologyNamespace))
  {
    TopologyLast([], p);
    TopologyLast([p], q);
    assert [p, q] == [p] + [q] && [p] == [] + [p];
  }

  lemma KnownOne(n: string, keys: set<string>)
    requires n in keys
    ensures Known([n], keys) == [n]
  {
    assert [n][..0] == [] && Known([n], keys) == Known([n][..0], keys) + [n];
  }

  lemma BlockedByLeftover(gen: seq<Step>, p: ApplicationPolicy, p': ApplicationPolicy, q: ApplicationPolicy)
    requires p.name == p'.name != q.name && TwoDeploySteps(gen, p.name, q.name)
    requires Separate([], gen)
    ensures q.name !in RecordsAfter([], gen, [p], [p', q], map[p.name := p])
  {
    var s, o := gen[0], gen[0].policies[0];
    assert s in gen && o in s.policies;
    EverythingBrought(gen, s, o);
    hide Within, WithinSome, AllTargets;
    assert forall x :: x in PoliciesOf(gen) ==> x.policyType == Topology;
    assert p' in [p', q];
    assert Created([], gen, [p', q], p.name);
    assert !DropsSome([], gen, p.name);
    PolicyStoredIff([], gen, [p], [p', q], map[p.name := p], q.name);
  }

  lemma BothPlaced(gen: seq<Step>, p: string, q: string)
    requires TwoDeploySteps(gen, p, q)
    ensures Front(AddedOf([], gen), gen) == [] && Back(AddedOf([], gen), gen) == gen
  {
    var added, s, s' := AddedOf([], gen), gen[0], gen[1];
    EverythingBrought(gen, s, s.policies[0]);
    EverythingBrought(gen, s', s'.policies[0]);
    OneBrought(added, s);
    OneBrought(added, s');
    hide CountWithin, Within, WithinSome, AddedOf, Front, Back;
    NothingPlaced(added);
    PlaceOne(added, [], s);
    PlaceOne(added, [s], s');
    assert gen == [s] + [s'] && [s] == [] + [s];
  }

  lemma BothBrought(s: Step, s': Step, u: WorkflowStep, v: WorkflowStep)
    requires s.name == u.name != v.name == s'.name
    ensures Brought([s, s'], StepMap([u, v])) == [u, v]
  {
    var m := StepMap([u, v]);
    hide Brought, StepMap, Lookup;
    LookupLast([], u, u.name);
    LookupLast([u], v, u.name);
    LookupLast([u], v, v.name);
    assert [u, v] == [u] + [v] && [u] == [] + [u];
    NoneBrought(m);
    BringOne([], s, m);
    BringOne([s], s', m);
    assert [s, s'] == [s] + [s'] && [s] == [] + [s];
  }

  lemma BothWritten(gen: seq<Step>, p: string, q: string)
    requires p != q && TwoDeploySteps(gen, p, q)
    ensures NewWorkflow([], gen, [], [DeployStep(p), DeployStep(q)]) == [DeployStep(p), DeployStep(q)]
  {
    BothPlaced(gen, p, q);
    BothBrought(gen[0], gen[1], DeployStep(p), DeployStep(q));
    assert gen == [gen[0], gen[1]];
    NoneBrought(StepMap([DeployStep(p), DeployStep(q)]));
    hide Front, Back, Brought, StepMap, DeployStep, Gone, Added, AllTargets;
  }

  lemma OneBrought(added: set<string>, s: Step)
    requires |s.policies| == 1 && Within(added, s.stepType, s.policies[0])
    ensures CountWithin(added, s.stepType, s.policies) == 1
  {
    assert s.policies[..0] == [];
  }

  /** The step of a policy was removed and its record stayed: the update brings the step back with a
      second one, whose policy is then not stored, since adding the records meets the one that
      stayed. */
  method BringBackRemovedStep(p: string, q: string, cluster: string, a: string, b: string) returns (ds: Datastore)
    requires p != q
    ensures ds.workflow == Some([DeployStep(p), DeployStep(q)]) && q !in ds.records
  {
    var before := Topo(p, cluster, a);
    ds := new Datastore(Some([]), map[p := before]);
    ghost var c := UpdateEnvWorkflow(ds, [DeployStep(p), DeployStep(q)], [Topo(p, cluster, a), Topo(q, cluster, b)]);
    OnlyRecord(c.existing, before);
    assert c.stored == [];
    BuiltTwo(c.gen, Topo(p, cluster, a), Topo(q, cluster, b), c.newObjs);
    BlockedByLeftover(c.gen, before, Topo(p, cluster, a), Topo(q, cluster, b));
    BothWritten(c.gen, p, q);
  }

  // ---------------------------------------------------------------- a name two ways

  /** Steps that share a policy and disagree on it are a cloud-resource step and a step of another
      type, and a topology policy is shared so only if the former's policy and environment join to
      its name. */
  lemma DisagreementIsCoincidence(gone: set<string>, s: Step, s': Step, w: WorkflowStep, w': WorkflowStep,
                                  policies: seq<ApplicationPolicy>, objs: map<string, Policy>, p: Policy)
    requires Describes(Table(policies), objs) && Follows(s, w, objs) && Follows(s', w', objs)
    requires p in s.policies && p in s'.policies && p.policyType == Topology
    requires !Within(gone, s.stepType, p) && Within(gone, s'.stepType, p)
    ensures (w.stepType == DeployCloudResource && w'.stepType != DeployCloudResource && JoinsTo(w, p.name)) ||
            (w'.stepType == DeployCloudResource && w.stepType != DeployCloudResource && JoinsTo(w', p.name))
  {
    if s.stepType == DeployCloudResource {
      CloudStepJoins(s, w, policies, objs, p);
    }
    if s'.stepType == DeployCloudResource {
      CloudStepJoins(s', w', policies, objs, p);
    }
  }

  predicate JoinsTo(w: WorkflowStep, name: string) {
    w.properties.Json? && w.properties.policy + "-" + w.properties.env == name
  }

  lemma CloudStepJoins(s: Step, w: WorkflowStep, policies: seq<ApplicationPolicy>, objs: map<string, Policy>, p: Policy)
    requires Describes(Table(policies), objs) && Follows(s, w, objs) && w.stepType == DeployCloudResource
    requires p in s.policies && p.policyType == Topology
    ensures JoinsTo(w, p.name)
  {
    var k := w.properties.policy + "-" + w.properties.env;
    ObjectsFrom([k], objs);
    var r := TableEntry(policies, k);
  }

  /** A topology policy shared by a deploy step and a cloud-resource step. */
  ghost predicate Sharing(stored: seq<Step>, p: Policy, target: string) {
    && |stored| == 2 && stored[0].stepType == Deploy && stored[1].stepType == DeployCloudResource
    && stored[0].policies == [p] && stored[1].policies == [p]
    && p.policyType == Topology && p.targets == [target]
  }

  lemma BuiltSharing(stored: seq<Step>, name: string, a: string, b: string, r: ApplicationPolicy, cluster: string, namespace: string,
                     objs: map<string, Policy>)
    requires a != "" && r == Topo(a + "-" + b, cluster, namespace)
    requires Built(stored, [DeployStep(r.name), CloudStep(name, a, b)], objs) && Describes(Table([r]), objs)
    ensures r.name in objs && Sharing(stored, objs[r.name], Target(cluster, namespace)) && objs[r.name].name == r.name
    ensures stored[0].name == r.name && stored[1].name == name
  {
    var u, v := DeployStep(r.name), CloudStep(name, a, b);
    OneTopology(r, cluster, namespace);
    assert r.name in objs;
    TrackDeploy(r.name, objs.Keys);
    assert Track(v, objs.Keys) == Tracked([r.name]);
    NoneTracked(objs.Keys);
    TrackOne([], u, objs.Keys);
    TrackOne([u], v, objs.Keys);
    hide Table, TrackedSteps, Objects, Target;
    assert [u, v] == [u] + [v] && [u] == [] + [u];
    FollowsDeploy(stored[0], r.name, objs);
    assert Follows(stored[1], v, objs);
    ObjectsFrom([r.name], objs);
  }

  lemma OneTopology(r: ApplicationPolicy, cluster: string, namespace: string)
    requires r == Topo(r.name, cluster, namespace)
    ensures Table([r]) == map[r.name := Info(r.name, Topology, [Target(cluster, namespace)])]
  {
    TopologyLast([], r);
    assert [r] == [] + [r] && Table([]) == map[];
    hide Table, Target;
    assert Table([r]) == map[][r.name := Info(r.name, Topology, ClusterTargets([cluster], namespace))];
    assert [cluster][..0] == [] && ClusterTargets([cluster][..0], namespace) == [];
    assert ClusterTargets([cluster], namespace) == [] + [Target(cluster, namespace)] == [Target(cluster, namespace)];
  }

  lemma BuiltDeployStep(steps: seq<Step>, r: ApplicationPolicy, cluster: string, namespace: string, objs: map<string, Policy>)
    requires r == Topo(r.name, cluster, namespace)
    requires Built(steps, [DeployStep(r.name)], objs) && Describes(Table([r]), objs)
    ensures OneDeployStep(steps, r, Target(cluster, namespace))
  {
    OneTopology(r, cluster, namespace);
    TrackDeploy(r.name, objs.Keys);
    BuiltOne(steps, DeployStep(r.name), objs, r.name);
  }

  /** One deploy step with one topology policy for one target. */
  ghost predicate OneDeployStep(steps: seq<Step>, r: ApplicationPolicy, target: string) {
    && |steps| == 1 && steps[0].name == r.name && steps[0].stepType == Deploy && |steps[0].policies| == 1
    && var p := steps[0].policies[0]; p.name == r.name && p.policyType == Topology && p.targets == [target]
  }

  lemma DeployTargets(steps: seq<Step>, r: ApplicationPolicy, target: string)
    requires OneDeployStep(steps, r, target)
    ensures AllTargets(steps) == [target] && PoliciesOf(steps) == {steps[0].policies[0]}
    ensures EveryPolicyHasTarget(steps) && Distinct(AllTargets(steps))
  {
    var s, p := steps[0], steps[0].policies[0];
    assert steps == [s] && s.policies == [p] && [s][..0] == [] && [p][..0] == [];
    assert TargetsOf(s.stepType, s.policies) == [] + [target];
    assert AllTargets(steps) == [] + TargetsOf(s.stepType, s.policies);
    assert s in steps && p in s.policies;
  }

  lemma SharingTargets(stored: seq<Step>, p: Policy, target: string)
    requires Sharing(stored, p, target)
    ensures AllTargets(stored) == [target, "c-" + target] && PoliciesOf(stored) == {p}
    ensures CacheTargets(DeployCloudResource, p.targets) == ["c-" + target] && target != "c-" + target
  {
    var s, s' := stored[0], stored[1];
    assert stored == [s, s'] && stored[..1] == [s] && [s][..0] == [] && [p][..0] == [];
    assert p.targets[1..] == [] && |"c-" + target| == |target| + 2;
    assert CacheTargets(DeployCloudResource, p.targets) == ["c-" + target] + CacheTargets(DeployCloudResource, []);
    assert TargetsOf(Deploy, [p]) == [] + [target] && TargetsOf(DeployCloudResource, [p]) == [] + ["c-" + target];
    assert AllTargets([s]) == AllTargets([s][..0]) + TargetsOf(Deploy, [p]);
    assert AllTargets(stored) == AllTargets([s]) + TargetsOf(DeployCloudResource, [p]);
    assert s in stored && s' in stored && p in s.policies;
  }

  /** Only the plain target is generated: the deploy step keeps the policy, the other drops it. */
  lemma SharingVerdicts(stored: seq<Step>, gen: seq<Step>, p: Policy, r: ApplicationPolicy, target: string)
    requires Sharing(stored, p, target) && OneDeployStep(gen, r, target)
    ensures AddedOf(stored, gen) == {}
    ensures OldVerdict(GoneOf(stored, gen), stored[0], Keep) == Keep && OldVerdict(GoneOf(stored, gen), stored[1], Keep) == Delete
    ensures WithinSome(GoneOf(stored, gen), stored, p)
  {
    SharingTargets(stored, p, target);
    DeployTargets(gen, r, target);
    var gone := GoneOf(stored, gen);
    hide AllTargets, TargetsOf, PoliciesOf, EveryPolicyHasTarget;
    assert multiset([target, "c-" + target])[target] == 1;
    assert target !in gone && "c-" + target in gone;
    assert [p][..0] == [] && stored[1] in stored && p in stored[1].policies;
    assert Within(gone, DeployCloudResource, p) && !Within(gone, Deploy, p);
  }

  lemma SharedIsLost(c: Comparison, db: Records, workflow: seq<WorkflowStep>, envSteps: seq<WorkflowStep>, policies: seq<ApplicationPolicy>,
                     p: Policy, r: ApplicationPolicy, target: string)
    requires Compares(workflow, db, envSteps, policies, c)
    requires Sharing(c.stored, p, target) && OneDeployStep(c.gen, r, target)
    ensures p.name !in RecordsAfter(c.stored, c.gen, c.existing, policies, db)
  {
    SharingTargets(c.stored, p, target);
    assert p in PoliciesOf(c.stored) && p.policyType == Topology;
    assert Separate(c.stored, c.gen);
    hide Compares, Sharing, OneDeployStep, AllTargets, PoliciesOf, WithinSome, OldVerdict, RecordsAfter, AddedOf, GoneOf;
    hide CacheTargets, Separate, EveryPolicyHasTarget, KindsAgree, Deleted, BringsSome, Front, Back;
    SharingVerdicts(c.stored, c.gen, p, r, target);
    DeployTargets(c.gen, r, target);
    NothingAdded(c.stored, c.gen);
    SharingKinds(c.stored, c.gen, p, r, target);
    TopologyDeletedIff(workflow, db, envSteps, policies, c, p);
    PolicyStoredIff(c.stored, c.gen, c.existing, policies, db, p.name);
  }

  lemma SharingKinds(stored: seq<Step>, gen: seq<Step>, p: Policy, r: ApplicationPolicy, target: string)
    requires Sharing(stored, p, target) && OneDeployStep(gen, r, target)
    ensures KindsAgree(stored, gen)
  {
    SharingTargets(stored, p, target);
    DeployTargets(gen, r, target);
    hide AllTargets, PoliciesOf, CacheTargets, EveryPolicyHasTarget;
  }

  lemma NothingAdded(stored: seq<Step>, gen: seq<Step>)
    requires AddedOf(stored, gen) == {} && EveryPolicyHasTarget(gen)
    ensures forall n, updating :: !BringsSome(stored, gen, n, updating)
    ensures Front(AddedOf(stored, gen), gen) == [] && Back(AddedOf(stored, gen), gen) == []
  {
    NothingBrought(gen);
    forall p | p in PoliciesOf(gen)
      ensures !WithinSome({}, gen, p)
    {
      NoTargetWithinNothing(gen, p);
    }
  }

  lemma SharedIsWritten(stored: seq<Step>, gen: seq<Step>, p: Policy, r: ApplicationPolicy, target: string,
                        u: WorkflowStep, v: WorkflowStep, envSteps: seq<WorkflowStep>)
    requires Sharing(stored, p, target) && OneDeployStep(gen, r, target)
    requires stored[0].name == u.name != v.name == stored[1].name
    ensures NewWorkflow(stored, gen, [u, v], envSteps) == [u]
  {
    hide AllTargets, CountWithin, Front, Back, Brought, StepMap, OldVerdict, Gone, Added, WithinSome, EveryPolicyHasTarget;
    hide BringsSome, OneDeployStep, Retained, PoliciesOf;
    SharingVerdicts(stored, gen, p, r, target);
    DeployTargets(gen, r, target);
    NothingAdded(stored, gen);
    NoneBrought(StepMap(envSteps));
    var gone, s, s' := GoneOf(stored, gen), stored[0], stored[1];
    assert stored == [s, s'];
    RetainFirst(gone, stored, s, s', u, v);
    assert NewWorkflow(stored, gen, [u, v], envSteps) == [] + [u] + [] == [u];
  }

  lemma RetainFirst(gone: set<string>, stored: seq<Step>, s: Step, s': Step, u: WorkflowStep, v: WorkflowStep)
    requires OldVerdict(gone, s, Keep) == Keep && OldVerdict(gone, s', Keep) == Delete && s.name == u.name != v.name
    ensures Retained(gone, stored, [s, s'], StepMap([u, v])) == [u]
  {
    var m := StepMap([u, v]);
    hide OldVerdict, StepMap, Lookup;
    LookupLast([], u, u.name);
    LookupLast([u], v, u.name);
    assert [u, v] == [u] + [v] && [u] == [] + [u];
    assert [s, s'][..1] == [s] && [s][..0] == [];
    assert Retained(gone, stored, [s], m) == Retained(gone, stored, [s][..0], m) + [u] == [u];
  }

  /** A deploy step and a cloud-resource step name one topology policy, the latter by joining its
      policy and environment. When only the plain target is generated, the deploy step is written
      again and its policy is no longer stored. */
  method DropSharedPolicy(name: string, a: string, b: string, g: string, cluster: string, namespace: string) returns (ds: Datastore)
    requires a != "" && name != a + "-" + b
    ensures ds.workflow == Some([DeployStep(a + "-" + b)]) && a + "-" + b !in ds.records
  {
    var r, q := Topo(a + "-" + b, cluster, namespace), Topo(g, cluster, namespace);
    var workflow := [DeployStep(r.name), CloudStep(name, a, b)];
    ds := new Datastore(Some(workflow), map[r.name := r]);
    ghost var c := UpdateEnvWorkflow(ds, [DeployStep(g)], [q]);
    OnlyRecord(c.existing, r);
    BuiltSharing(c.stored, name, a, b, r, cluster, namespace, c.oldObjs);
    BuiltDeployStep(c.gen, q, cluster, namespace, c.newObjs);
    SharedIsLost(c, map[r.name := r], workflow, [DeployStep(g)], [q], c.oldObjs[r.name], q, Target(cluster, namespace));
    SharedIsWritten(c.stored, c.gen, c.oldObjs[r.name], q, Target(cluster, namespace), workflow[0], workflow[1], [DeployStep(g)]);
  }
}
