/** A second target added to the cloud-resource steps of an environment: they share one policy, whose
    record is replaced. */
module WorkflowGrowth {
  import opened Options
  import opened WorkflowModel
  import opened WorkflowComparison
  import opened WorkflowCoverage
  import opened WorkflowPolicies
  import opened WorkflowReconciliation
  import opened WorkflowRecords
  import opened WorkflowLosses

  function BindingOf(policy: string, a: EnvConfig, b: EnvConfig): ApplicationPolicy {
    ApplicationPolicy(policy, EnvBinding, EnvBindingSpec([a, b]))
  }

  ghost predicate CloudFor(s: Step, policy: string, e: EnvConfig) {
    && s.stepType == DeployCloudResource && |s.policies| == 1
    && var p := s.policies[0]; p.name == policy && p.policyType == EnvBinding && p.targets == [TargetOf(e)]
  }

  lemma KeysDiffer(policy: string, a: string, b: string)
    requires a != b
    ensures policy + "-" + a != policy + "-" + b
  {
    assert (policy + "-" + a)[|policy| + 1..] == a && (policy + "-" + b)[|policy| + 1..] == b;
  }

  lemma TwoEntries(policy: string, a: EnvConfig, b: EnvConfig)
    requires a.envName != b.envName
    ensures
      var k, l := policy + "-" + a.envName, policy + "-" + b.envName;
      && k != l
      && Table([BindingOf(policy, a, b)]) ==
         map[k := Info(policy, EnvBinding, [TargetOf(a)]), l := Info(policy, EnvBinding, [TargetOf(b)])]
  {
    KeysDiffer(policy, a.envName, b.envName);
    var r := BindingOf(policy, a, b);
    assert [r][..0] == [] && Table([]) == map[];
    assert [a, b][..1] == [a] && [a][..0] == [];
    assert Table([r]) == WithEnvs(map[], policy, [a, b]);
    assert WithEnvs(map[], policy, [a]) == map[policy + "-" + a.envName := Info(policy, EnvBinding, [TargetOf(a)])];
  }

  lemma TrackCloud(name: string, policy: string, env: string, keys: set<string>)
    requires policy != "" && policy + "-" + env in keys
    ensures Track(CloudStep(name, policy, env), keys) == Tracked([policy + "-" + env])
  {
  }

  lemma FollowsCloud(s: Step, name: string, policy: string, e: EnvConfig, objs: map<string, Policy>)
    requires policy != "" && policy + "-" + e.envName in objs && Follows(s, CloudStep(name, policy, e.envName), objs)
    requires
      var p := objs[policy + "-" + e.envName];
      p.name == policy && p.policyType == EnvBinding && p.targets == [TargetOf(e)]
    ensures s.name == name && CloudFor(s, policy, e)
  {
    TrackCloud(name, policy, e.envName, objs.Keys);
    ObjectsFrom([policy + "-" + e.envName], objs);
  }

  lemma BuiltTwoClouds(gen: seq<Step>, n: string, n': string, policy: string, a: EnvConfig, b: EnvConfig, objs: map<string, Policy>)
    requires policy != "" && a.envName != b.envName && Describes(Table([BindingOf(policy, a, b)]), objs)
    requires Built(gen, [CloudStep(n, policy, a.envName), CloudStep(n', policy, b.envName)], objs)
    ensures |gen| == 2 && CloudFor(gen[0], policy, a) && CloudFor(gen[1], policy, b) && gen[0].name == n && gen[1].name == n'
  {
    var u, v := CloudStep(n, policy, a.envName), CloudStep(n', policy, b.envName);
    TwoEntries(policy, a, b);
    var k, l := policy + "-" + a.envName, policy + "-" + b.envName;
    assert k in objs && l in objs;
    TrackCloud(n, policy, a.envName, objs.Keys);
    TrackCloud(n', policy, b.envName, objs.Keys);
    assert Info(objs[k].name, objs[k].policyType, objs[k].targets) == Info(policy, EnvBinding, [TargetOf(a)]);
    assert Info(objs[l].name, objs[l].policyType, objs[l].targets) == Info(policy, EnvBinding, [TargetOf(b)]);
    hide Table, Track, TrackedSteps, Objects, CloudStep, Describes, TargetOf;
    NoneTracked(objs.Keys);
    TrackOne([], u, objs.Keys);
    TrackOne([u], v, objs.Keys);
    assert [u, v] == [u] + [v] && [u] == [] + [u];
    FollowsCloud(gen[0], n, policy, a, objs);
    FollowsCloud(gen[1], n', policy, b, objs);
  }

  lemma CloudCounts(s: Step, policy: string, e: EnvConfig, ts: set<string>)
    requires CloudFor(s, policy, e)
    ensures TargetsOf(DeployCloudResource, s.policies) == [CloudTarget(e)]
    ensures CountWithin(ts, DeployCloudResource, s.policies) == if CloudTarget(e) in ts then 1 else 0
    ensures Within(ts, DeployCloudResource, s.policies[0]) <==> CloudTarget(e) in ts
  {
    var p := s.policies[0];
    CloudCached(p, e);
    hide CacheTargets, CloudTarget, TargetOf;
    assert s.policies == [p] && [p][..0] == [];
    assert TargetsOf(DeployCloudResource, [p]) == TargetsOf(DeployCloudResource, [p][..0]) + [CloudTarget(e)];
    assert CacheTargets(DeployCloudResource, p.targets) == [CloudTarget(e)];
  }

  /** One step is stored, and a second one generated beside it. */
  ghost predicate Growing(stored: seq<Step>, gen: seq<Step>, policy: string, a: EnvConfig, b: EnvConfig) {
    && |stored| == 1 && CloudFor(stored[0], policy, a)
    && |gen| == 2 && CloudFor(gen[0], policy, a) && CloudFor(gen[1], policy, b)
    && TargetOf(a) != TargetOf(b) && policy != ""
  }

  lemma GrowingTargets(stored: seq<Step>, gen: seq<Step>, policy: string, a: EnvConfig, b: EnvConfig)
    requires Growing(stored, gen, policy, a, b)
    ensures AllTargets(stored) == [CloudTarget(a)] && AllTargets(gen) == [CloudTarget(a), CloudTarget(b)]
    ensures CloudTarget(a) != CloudTarget(b)
  {
    var s, g, h := stored[0], gen[0], gen[1];
    TaggedDiffer(a, b);
    CloudCounts(s, policy, a, {});
    CloudCounts(g, policy, a, {});
    CloudCounts(h, policy, b, {});
    hide TargetsOf, CloudTarget, TargetOf, CountWithin, Within;
    assert stored == [s] && stored[..0] == [] && gen == [g, h] && gen[..1] == [g] && [g][..0] == [];
    assert AllTargets(stored) == AllTargets(stored[..0]) + TargetsOf(s.stepType, s.policies);
    assert AllTargets([g]) == AllTargets([g][..0]) + TargetsOf(g.stepType, g.policies);
    assert AllTargets(gen) == AllTargets([g]) + TargetsOf(h.stepType, h.policies);
  }

  lemma GrowingVerdicts(stored: seq<Step>, gen: seq<Step>, policy: string, a: EnvConfig, b: EnvConfig)
    requires Growing(stored, gen, policy, a, b)
    ensures GoneOf(stored, gen) == {} && AddedOf(stored, gen) == {CloudTarget(b)}
    ensures OldVerdict({}, stored[0], Keep) == Keep
    ensures CountWithin({CloudTarget(b)}, DeployCloudResource, gen[0].policies) == 0
    ensures CountWithin({CloudTarget(b)}, DeployCloudResource, gen[1].policies) == 1
  {
    GrowingTargets(stored, gen, policy, a, b);
    CloudCounts(stored[0], policy, a, {});
    CloudCounts(gen[0], policy, a, {CloudTarget(b)});
    CloudCounts(gen[1], policy, b, {CloudTarget(b)});
    hide TargetsOf, CloudTarget, TargetOf, CountWithin, AllTargets, Within;
    var x, y := CloudTarget(a), CloudTarget(b);
    assert multiset([x])[x] == 1;
  }

  /** The new step comes first, the stored one stays. */
  lemma GrowingWritten(stored: seq<Step>, gen: seq<Step>, policy: string, a: EnvConfig, b: EnvConfig,
                       o: WorkflowStep, u: WorkflowStep, v: WorkflowStep)
    requires Growing(stored, gen, policy, a, b) && o.name == stored[0].name && v.name == gen[1].name
    ensures NewWorkflow(stored, gen, [o], [u, v]) == [v, o]
  {
    hide TargetOf, CloudTarget, CountWithin, OldVerdict, Gone, Added, Front, Back, Brought, Retained, StepMap, Lookup, AllTargets;
    GrowingVerdicts(stored, gen, policy, a, b);
    var added, s, g, h := {CloudTarget(b)}, stored[0], gen[0], gen[1];
    GrowingPlaced(added, g, h);
    GrowingFound(stored, s, h, o, u, v);
    assert stored == [s] && gen == [g, h];
    hide Growing, CloudFor;
    PartsWritten(stored, gen, [o], [u, v], {}, added);
    assert [v] + [o] + [] == [v, o];
  }

  lemma PartsWritten(stored: seq<Step>, gen: seq<Step>, workflow: seq<WorkflowStep>, envSteps: seq<WorkflowStep>,
                     gone: set<string>, added: set<string>)
    requires GoneOf(stored, gen) == gone && AddedOf(stored, gen) == added
    ensures NewWorkflow(stored, gen, workflow, envSteps) ==
            Brought(Front(added, gen), StepMap(envSteps)) + Retained(gone, stored, stored, StepMap(workflow))
            + Brought(Back(added, gen), StepMap(envSteps))
  {
    hide Gone, Added, AllTargets, Brought, Front, Back, Retained, StepMap;
  }

  lemma GrowingPlaced(added: set<string>, g: Step, h: Step)
    requires g.stepType == DeployCloudResource && h.stepType == DeployCloudResource
    requires CountWithin(added, DeployCloudResource, g.policies) == 0 && CountWithin(added, DeployCloudResource, h.policies) == 1
    ensures Front(added, [g, h]) == [h] && Back(added, [g, h]) == []
  {
    hide CountWithin, Front, Back;
    NothingPlaced(added);
    PlaceNone(added, [], g);
    PlaceOne(added, [g], h);
    assert [g, h] == [g] + [h] && [g] == [] + [g];
  }

  lemma GrowingFound(stored: seq<Step>, s: Step, h: Step, o: WorkflowStep, u: WorkflowStep, v: WorkflowStep)
    requires s.name == o.name && h.name == v.name && OldVerdict({}, s, Keep) == Keep
    ensures Brought([h], StepMap([u, v])) == [v] && Brought([], StepMap([u, v])) == []
    ensures Retained({}, stored, [s], StepMap([o])) == [o]
  {
    hide OldVerdict, Brought, StepMap, Lookup;
    LookupLast([u], v, v.name);
    LookupLast([], o, o.name);
    assert [u, v] == [u] + [v] && [o] == [] + [o] && [h] == [] + [h] && [s][..0] == [];
    NoneBrought(StepMap([u, v]));
    BringOne([], h, StepMap([u, v]));
  }

  lemma GrowingKinds(stored: seq<Step>, gen: seq<Step>, policy: string, a: EnvConfig, b: EnvConfig)
    requires Growing(stored, gen, policy, a, b)
    ensures KindsAgree(stored, gen) && HasCloudStep(stored)
  {
    assert stored[0] in stored;
    forall p | p in PoliciesOf(stored) + PoliciesOf(gen)
      ensures p.name == policy && p.policyType == EnvBinding
    {
      hide TargetOf;
      if p in PoliciesOf(stored) {
        var s :| s in stored && p in s.policies;
        assert s == stored[0];
      } else {
        var s :| s in gen && p in s.policies;
        assert s == gen[0] || s == gen[1];
      }
    }
    hide PoliciesOf;
  }

  lemma GrowingDropsNone(stored: seq<Step>, gen: seq<Step>, policy: string, a: EnvConfig, b: EnvConfig)
    requires Growing(stored, gen, policy, a, b)
    ensures !DropsSome(stored, gen, policy)
  {
    GrowingVerdicts(stored, gen, policy, a, b);
    hide CloudTarget, TargetOf, CountWithin, OldVerdict, AllTargets, Gone, Added, WithinSome;
    forall q | q in PoliciesOf(stored)
      ensures !WithinSome({}, stored, q)
    {
      var s :| s in stored && q in s.policies;
      assert s == stored[0] && q.targets != [];
      NoTargetWithinNothing(stored, q);
    }
    hide PoliciesOf;
  }

  lemma GrowingBrings(stored: seq<Step>, gen: seq<Step>, policy: string, a: EnvConfig, b: EnvConfig)
    requires Growing(stored, gen, policy, a, b)
    ensures BringsSome(stored, gen, policy, true)
  {
    GrowingVerdicts(stored, gen, policy, a, b);
    var h, p := gen[1], gen[1].policies[0];
    CloudCounts(h, policy, b, {CloudTarget(b)});
    hide CloudTarget, TargetOf, CountWithin, OldVerdict, AllTargets, Gone, Added, Within, TargetsOf;
    assert stored[0] in stored;
    assert h in gen && p in h.policies && p in PoliciesOf(gen);
    assert WithinSome({CloudTarget(b)}, gen, p);
  }

  lemma GrowingPolicies(stored: seq<Step>, gen: seq<Step>, policy: string, a: EnvConfig, b: EnvConfig)
    requires Growing(stored, gen, policy, a, b)
    ensures KindsAgree(stored, gen) && HasCloudStep(stored)
    ensures !DropsSome(stored, gen, policy) && BringsSome(stored, gen, policy, true)
  {
    hide Growing, KindsAgree, HasCloudStep, DropsSome, BringsSome;
    GrowingKinds(stored, gen, policy, a, b);
    GrowingDropsNone(stored, gen, policy, a, b);
    GrowingBrings(stored, gen, policy, a, b);
  }

  lemma GrowingRecord(stored: seq<Step>, gen: seq<Step>, policy: string, a: EnvConfig, b: EnvConfig, was: ApplicationPolicy)
    requires Growing(stored, gen, policy, a, b) && Separate(stored, gen) && was.name == policy
    ensures RecordsAfter(stored, gen, [was], [BindingOf(policy, a, b)], map[policy := was]) == map[policy := BindingOf(policy, a, b)]
  {
    var now, db := BindingOf(policy, a, b), map[policy := was];
    var after := RecordsAfter(stored, gen, [was], [now], db);
    GrowingPolicies(stored, gen, policy, a, b);
    assert now in [now] && policy in NamesOf([now]);
    assert !Deleted(stored, gen, [was], policy);
    hide Growing, Separate, KindsAgree, HasCloudStep, RecordsAfter, DropsSome, BringsSome, Deleted;
    RecordAfterwards(stored, gen, [was], [now], db, policy);
    assert after[policy] == now;
    forall n | n in after
      ensures n == policy
    {
      PolicyStoredIff(stored, gen, [was], [now], db, n);
    }
    assert after.Keys == {policy};
  }

  /** A second target is added: its step is written in front of the stored one, and the record of the
      policy they share becomes the generated one, for both targets. */
  method AddCloudTarget(n: string, n': string, policy: string, a: EnvConfig, b: EnvConfig) returns (ds: Datastore)
    requires policy != "" && a.envName != b.envName && TargetOf(a) != TargetOf(b)
    ensures ds.workflow == Some([CloudStep(n', policy, b.envName), CloudStep(n, policy, a.envName)])
    ensures ds.records == map[policy := ApplicationPolicy(policy, EnvBinding, EnvBindingSpec([a, b]))]
  {
    var o, v := CloudStep(n, policy, a.envName), CloudStep(n', policy, b.envName);
    var was := Binding(policy, a);
    ds := new Datastore(Some([o]), map[policy := was]);
    ghost var c := UpdateEnvWorkflow(ds, [o, v], [BindingOf(policy, a, b)]);
    OnlyRecord(c.existing, was);
    BuiltCloudStep(c.stored, n, policy, a, c.oldObjs);
    BuiltTwoClouds(c.gen, n, n', policy, a, b, c.newObjs);
    assert Growing(c.stored, c.gen, policy, a, b);
    GrowingRecord(c.stored, c.gen, policy, a, b, was);
    GrowingWritten(c.stored, c.gen, policy, a, b, o, o, v);
  }
}
