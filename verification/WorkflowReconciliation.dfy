/** Updating an environment's workflow: building comparable steps, comparing them, and writing
    back the steps. */
module WorkflowReconciliation {
  import opened Options
  import opened WorkflowModel
  import opened WorkflowComparison
  import opened WorkflowCoverage
  import opened WorkflowPolicies

  // ---------------------------------------------------------------- createWorkflowSteps

  datatype Info = Info(name: string, policyType: PolicyType, targets: seq<string>)

  function Target(cluster: string, namespace: string): string {
    cluster + "/" + namespace
  }

  function ClusterTargets(clusters: seq<string>, namespace: string): seq<string> {
    if clusters == [] then []
    else ClusterTargets(clusters[..|clusters| - 1], namespace) + [Target(clusters[|clusters| - 1], namespace)]
  }

  function WithEnvs(table: map<string, Info>, name: string, envs: seq<EnvConfig>): map<string, Info> {
    if envs == [] then table
    else
      var e := envs[|envs| - 1];
      WithEnvs(table, name, envs[..|envs| - 1])[name + "-" + e.envName := Info(name, EnvBinding, [Target(e.cluster, e.namespace)])]
  }

  /** The policies a step can name, by the key it names them with; unreadable policies and other
      policy types are left out, and a later policy replaces an earlier one. */
  function Table(policies: seq<ApplicationPolicy>): map<string, Info> {
    if policies == [] then map[]
    else
      var before, p := Table(policies[..|policies| - 1]), policies[|policies| - 1];
      if p.policyType == Topology && p.spec.TopologySpec? then
        before[p.name := Info(p.name, Topology, ClusterTargets(p.spec.clusters, p.spec.topologyNamespace))]
      else if p.policyType == EnvBinding && p.spec.EnvBindingSpec? then WithEnvs(before, p.name, p.spec.envs)
      else before
  }

  lemma TopologyLast(ps: seq<ApplicationPolicy>, p: ApplicationPolicy)
    requires p.policyType == Topology && p.spec.TopologySpec?
    ensures Table(ps + [p]) == Table(ps)[p.name := Info(p.name, Topology, ClusterTargets(p.spec.clusters, p.spec.topologyNamespace))]
  {
    assert (ps + [p])[..|ps|] == ps;
  }

  ghost predicate Describes(table: map<string, Info>, objs: map<string, Policy>) {
    && objs.Keys == table.Keys
    && forall k :: k in objs ==> Info(objs[k].name, objs[k].policyType, objs[k].targets) == table[k]
  }

  ghost predicate Holds(objs: map<string, Policy>, table: map<string, Info>)
    reads objs.Values
  {
    Describes(table, objs) && forall k :: k in objs ==> objs[k].state == Keep
  }

  method AddEnvPolicies(objs: map<string, Policy>, ghost table: map<string, Info>, name: string, envs: seq<EnvConfig>)
    returns (objs': map<string, Policy>)
    requires Holds(objs, table)
    ensures Holds(objs', WithEnvs(table, name, envs))
    ensures forall k :: k in objs' ==> objs'[k] in objs.Values || fresh(objs'[k])
  {
    objs' := objs;
    for i := 0 to |envs|
      invariant Holds(objs', WithEnvs(table, name, envs[..i]))
      invariant forall k :: k in objs' ==> objs'[k] in objs.Values || fresh(objs'[k])
    {
      var e := envs[i];
      assert envs[..i + 1][..i] == envs[..i];
      var p := new Policy(name, EnvBinding, [Target(e.cluster, e.namespace)]);
      objs' := objs'[name + "-" + e.envName := p];
    }
    assert envs[..|envs|] == envs;
  }

  method BuildPolicies(policies: seq<ApplicationPolicy>) returns (objs: map<string, Policy>)
    ensures Holds(objs, Table(policies))
    ensures forall k :: k in objs ==> fresh(objs[k])
  {
    objs := map[];
    for j := 0 to |policies|
      invariant Holds(objs, Table(policies[..j]))
      invariant forall k :: k in objs ==> fresh(objs[k])
    {
      assert policies[..j + 1][..j] == policies[..j];
      var p := policies[j];
      if p.policyType == Topology && p.spec.TopologySpec? {
        var o := new Policy(p.name, p.policyType, ClusterTargets(p.spec.clusters, p.spec.topologyNamespace));
        objs := objs[p.name := o];
      } else if p.policyType == EnvBinding && p.spec.EnvBindingSpec? {
        objs := AddEnvPolicies(objs, Table(policies[..j]), p.name, p.spec.envs);
      }
    }
    assert policies[..|policies|] == policies;
  }

  datatype Tracked = Untracked | Tracked(keys: seq<string>)

  function Known(names: seq<string>, keys: set<string>): (r: seq<string>)
    ensures forall k :: k in r ==> k in keys
  {
    if names == [] then []
    else Known(names[..|names| - 1], keys) + if names[|names| - 1] in keys then [names[|names| - 1]] else []
  }

  /** The policy keys a stored step is compared by, or that it is dropped. */
  function Track(w: WorkflowStep, keys: set<string>): (t: Tracked)
    ensures t.Tracked? ==> forall k :: k in t.keys ==> k in keys
  {
    match w.stepType
    case Deploy => if w.properties.Unreadable? then Untracked else Tracked(Known(w.properties.policies, keys))
    case Plain(_) => Tracked([])
    case _ =>
      if w.properties.Unreadable? || w.properties.policy == "" then Untracked
      else
        var k := w.properties.policy + "-" + w.properties.env;
        if k in keys then Tracked([k]) else Untracked
  }

  /** A topology policy has one target per cluster, in order: the cluster and the namespace. */
  lemma {:induction false} ClusterTargetsAt(clusters: seq<string>, namespace: string, i: nat)
    requires i < |clusters|
    ensures |ClusterTargets(clusters, namespace)| == |clusters|
    ensures ClusterTargets(clusters, namespace)[i] == clusters[i] + "/" + namespace
  {
    hide Target;
    if |clusters| > 1 {
      ClusterTargetsAt(clusters[..|clusters| - 1], namespace, if i < |clusters| - 1 then i else 0);
    }
    assert Target(clusters[i], namespace) == clusters[i] + "/" + namespace by {
      TargetIs(clusters[i], namespace);
    }
  }

  lemma TargetIs(cluster: string, namespace: string)
    ensures Target(cluster, namespace) == cluster + "/" + namespace
  {
  }

  /** How a stored step is compared: a readable deploy step by the known policies it names, an
      environment or cloud-resource step by the one its policy and environment join to, any other by
      none; the rest does not take part. */
  lemma TrackCases(w: WorkflowStep, keys: set<string>)
    ensures w.stepType.Plain? ==> Track(w, keys) == Tracked([])
    ensures !w.stepType.Plain? && w.properties.Unreadable? ==> Track(w, keys) == Untracked
    ensures w.stepType == Deploy && w.properties.Json? ==> Track(w, keys) == Tracked(Known(w.properties.policies, keys))
    ensures (w.stepType == Deploy2Env || w.stepType == DeployCloudResource) && w.properties.Json? ==>
              var k := w.properties.policy + "-" + w.properties.env;
              Track(w, keys) == if w.properties.policy != "" && k in keys then Tracked([k]) else Untracked
  {
  }

  lemma CountLast(s: seq<string>, x: string, n: string)
    ensures multiset(s + [x])[n] == multiset(s)[n] + if n == x then 1 else 0
  {
    assert multiset(s + [x]) == multiset(s) + multiset{x};
  }

  /** The known names stay, as often as they are named. */
  lemma {:induction false} KnownCount(names: seq<string>, keys: set<string>, n: string)
    ensures multiset(Known(names, keys))[n] == if n in keys then multiset(names)[n] else 0
  {
    if names != [] {
      var init, last := names[..|names| - 1], names[|names| - 1];
      KnownCount(init, keys, n);
      assert names == init + [last] && Known(init, keys) + [] == Known(init, keys);
      CountLast(init, last, n);
      CountLast(Known(init, keys), last, n);
    }
  }

  /** The stored steps that take part, in their order. */
  function TrackedSteps(steps: seq<WorkflowStep>, keys: set<string>): (r: seq<WorkflowStep>)
    ensures forall w :: w in r ==> w in steps && Track(w, keys).Tracked?
  {
    if steps == [] then []
    else
      var w := steps[|steps| - 1];
      TrackedSteps(steps[..|steps| - 1], keys) + if Track(w, keys).Tracked? then [w] else []
  }

  function Objects(keys: seq<string>, objs: map<string, Policy>): seq<Policy>
    requires forall k :: k in keys ==> k in objs
  {
    if keys == [] then [] else Objects(keys[..|keys| - 1], objs) + [objs[keys[|keys| - 1]]]
  }

  ghost predicate Follows(s: Step, w: WorkflowStep, objs: map<string, Policy>)
  {
    var t := Track(w, objs.Keys);
    t.Tracked? && s.name == w.name && s.stepType == w.stepType && s.policies == Objects(t.keys, objs)
  }

  lemma {:induction false} ObjectsFrom(keys: seq<string>, objs: map<string, Policy>)
    requires forall k :: k in keys ==> k in objs
    ensures |Objects(keys, objs)| == |keys|
    ensures forall i :: 0 <= i < |keys| ==> Objects(keys, objs)[i] == objs[keys[i]]
  {
    if keys != [] {
      ObjectsFrom(keys[..|keys| - 1], objs);
    }
  }

  method NamedPolicies(names: seq<string>, objs: map<string, Policy>) returns (ps: seq<Policy>)
    ensures ps == Objects(Known(names, objs.Keys), objs)
  {
    ps := [];
    for i := 0 to |names|
      invariant ps == Objects(Known(names[..i], objs.Keys), objs)
    {
      assert names[..i + 1][..i] == names[..i];
      ghost var known := Known(names[..i], objs.Keys);
      if names[i] in objs {
        assert (known + [names[i]])[..|known|] == known;
        ps := ps + [objs[names[i]]];
      } else {
        assert known + [] == known;
      }
    }
    assert names[..|names|] == names;
  }

  method StepPolicies(w: WorkflowStep, objs: map<string, Policy>) returns (tracked: bool, ps: seq<Policy>)
    ensures tracked <==> Track(w, objs.Keys).Tracked?
    ensures tracked ==> ps == Objects(Track(w, objs.Keys).keys, objs)
  {
    match w.stepType {
      case Deploy =>
        if w.properties.Unreadable? {
          return false, [];
        }
        ps := NamedPolicies(w.properties.policies, objs);
        return true, ps;
      case Plain(_) =>
        return true, [];
      case _ =>
        if w.properties.Unreadable? || w.properties.policy == "" {
          return false, [];
        }
        var k := w.properties.policy + "-" + w.properties.env;
        if k !in objs {
          return false, [];
        }
        assert [k][..0] == [] && Objects([k], objs) == [] + [objs[k]];
        return true, [objs[k]];
    }
  }

  ghost predicate Unmarked(steps: seq<Step>)
    reads steps, PoliciesOf(steps)
  {
    && (forall s :: s in steps ==> s.state == Keep)
    && (forall p :: p in PoliciesOf(steps) ==> p.state == Keep)
  }

  ghost predicate Built(r: seq<Step>, steps: seq<WorkflowStep>, objs: map<string, Policy>) {
    var tracked := TrackedSteps(steps, objs.Keys);
    && |r| == |tracked|
    && forall j :: 0 <= j < |r| ==> Follows(r[j], tracked[j], objs)
  }

  method BuildSteps(steps: seq<WorkflowStep>, objs: map<string, Policy>) returns (r: seq<Step>)
    ensures Built(r, steps, objs)
    ensures fresh(r) && forall s :: s in r ==> s.state == Keep
  {
    hide Objects;
    r := [];
    for j := 0 to |steps|
      invariant Built(r, steps[..j], objs)
      invariant fresh(r) && forall s :: s in r ==> s.state == Keep
    {
      assert steps[..j + 1][..j] == steps[..j];
      var tracked, ps := StepPolicies(steps[j], objs);
      if tracked {
        var s := new Step(steps[j].name, steps[j].stepType, ps);
        assert Follows(s, steps[j], objs);
        r := r + [s];
      }
    }
    assert steps[..|steps|] == steps;
  }

  method CreateWorkflowSteps(steps: seq<WorkflowStep>, policies: seq<ApplicationPolicy>)
    returns (r: seq<Step>, ghost objs: map<string, Policy>)
    ensures Holds(objs, Table(policies)) && Built(r, steps, objs)
    ensures fresh(r) && fresh(PoliciesOf(r)) && Unmarked(r)
  {
    var made := BuildPolicies(policies);
    objs := made;
    r := BuildSteps(steps, made);
    BuiltPolicies(r, steps, objs);
    forall p | p in PoliciesOf(r)
      ensures fresh(p) && p.state == Keep
    {
      var k :| k in objs && objs[k] == p;
    }
  }

  lemma BuiltPolicies(r: seq<Step>, steps: seq<WorkflowStep>, objs: map<string, Policy>)
    requires Built(r, steps, objs)
    ensures forall p :: p in PoliciesOf(r) ==> p in objs.Values
  {
    var tracked := TrackedSteps(steps, objs.Keys);
    forall p | p in PoliciesOf(r)
      ensures p in objs.Values
    {
      var s :| s in r && p in s.policies;
      var j :| 0 <= j < |r| && r[j] == s;
      assert Follows(r[j], tracked[j], objs);
      var keys := Track(tracked[j], objs.Keys).keys;
      ObjectsFrom(keys, objs);
      var i :| 0 <= i < |s.policies| && s.policies[i] == p;
      assert keys[i] in keys;
      assert p == objs[keys[i]];
    }
  }

  // ---------------------------------------------------------------- getSteps

  const NO_STEP := WorkflowStep("", Plain(""), Unreadable)

  function StepMap(steps: seq<WorkflowStep>): map<string, WorkflowStep> {
    if steps == [] then map[]
    else StepMap(steps[..|steps| - 1])[steps[|steps| - 1].name := steps[|steps| - 1]]
  }

  function Lookup(m: map<string, WorkflowStep>, name: string): WorkflowStep {
    if name in m then m[name] else NO_STEP
  }

  function WithPolicies(w: WorkflowStep, names: seq<string>): WorkflowStep {
    if w.properties.Json? then w.(properties := w.properties.(policies := names)) else w
  }

  function Undeleted(ps: seq<Policy>): seq<Policy>
    reads ps
  {
    if ps == [] then []
    else
      var p := ps[|ps| - 1];
      Undeleted(ps[..|ps| - 1]) + if p.state != Delete then [p] else []
  }

  function Names(ps: seq<Policy>): seq<string> {
    if ps == [] then [] else Names(ps[..|ps| - 1]) + [ps[|ps| - 1].name]
  }

  function EmitOne(s: Step, gen: map<string, WorkflowStep>, exist: map<string, WorkflowStep>): seq<WorkflowStep>
    reads s, s.policies
  {
    match s.state
    case Keep => [Lookup(exist, s.name)]
    case Update => [Lookup(gen, s.name)]
    case New => [Lookup(gen, s.name)]
    case Modify =>
      if s.stepType == Deploy then [WithPolicies(Lookup(exist, s.name), Names(Undeleted(s.policies)))] else []
    case Delete => []
  }

  ghost function Emit(steps: seq<Step>, gen: map<string, WorkflowStep>, exist: map<string, WorkflowStep>): seq<WorkflowStep>
    reads steps, PoliciesOf(steps)
  {
    if steps == [] then []
    else
      var s := steps[|steps| - 1];
      assert forall p :: p in s.policies ==> p in PoliciesOf(steps);
      assert forall p :: p in PoliciesOf(steps[..|steps| - 1]) ==> p in PoliciesOf(steps);
      Emit(steps[..|steps| - 1], gen, exist) + EmitOne(s, gen, exist)
  }

  method GetSteps(steps: seq<Step>, gen: seq<WorkflowStep>, exist: seq<WorkflowStep>) returns (result: seq<WorkflowStep>)
    ensures result == Emit(steps, StepMap(gen), StepMap(exist))
  {
    var existMaps, newMaps := StepMap(exist), StepMap(gen);
    result := [];
    for j := 0 to |steps|
      invariant result == Emit(steps[..j], newMaps, existMaps)
    {
      assert steps[..j + 1][..j] == steps[..j];
      result := result + EmitOne(steps[j], newMaps, existMaps);
    }
    assert steps[..|steps|] == steps;
  }

  lemma {:induction false} EmitConcat(a: seq<Step>, b: seq<Step>, gen: map<string, WorkflowStep>, exist: map<string, WorkflowStep>)
    ensures Emit(a + b, gen, exist) == Emit(a, gen, exist) + Emit(b, gen, exist)
  {
    if b == [] {
      assert a + b == a;
    } else {
      var init := b[..|b| - 1];
      assert (a + b)[..|a + b| - 1] == a + init;
      EmitConcat(a, init, gen, exist);
    }
  }

  // ---------------------------------------------------------------- what is written back

  function Brought(steps: seq<Step>, gen: map<string, WorkflowStep>): seq<WorkflowStep> {
    if steps == [] then [] else Brought(steps[..|steps| - 1], gen) + [Lookup(gen, steps[|steps| - 1].name)]
  }

  /** What a stored step becomes, given how it was stored. */
  ghost function Rewritten(gone: set<string>, stored: seq<Step>, s: Step, w: WorkflowStep): seq<WorkflowStep> {
    match OldVerdict(gone, s, Keep)
    case Keep => [w]
    case Modify => if s.stepType == Deploy then [WithPolicies(w, Names(Staying(gone, stored, s.policies)))] else []
    case _ => []
  }

  /** What the stored steps become, in their order. */
  ghost function Retained(gone: set<string>, stored: seq<Step>, steps: seq<Step>, exist: map<string, WorkflowStep>): seq<WorkflowStep> {
    if steps == [] then []
    else
      var s := steps[|steps| - 1];
      Retained(gone, stored, steps[..|steps| - 1], exist) + Rewritten(gone, stored, s, Lookup(exist, s.name))
  }

  ghost predicate OldMarked(gone: set<string>, stored: seq<Step>)
    reads stored, PoliciesOf(stored)
  {
    && (forall s :: s in stored ==> s.state == OldVerdict(gone, s, Keep))
    && (forall p :: p in PoliciesOf(stored) ==> p.state == if WithinSome(gone, stored, p) then Delete else Keep)
  }

  lemma {:induction false} UndeletedAreStaying(gone: set<string>, stored: seq<Step>, ps: seq<Policy>)
    requires OldMarked(gone, stored) && forall p :: p in ps ==> p in PoliciesOf(stored)
    ensures Undeleted(ps) == Staying(gone, stored, ps)
  {
    if ps != [] {
      assert ps[|ps| - 1] in PoliciesOf(stored);
      UndeletedAreStaying(gone, stored, ps[..|ps| - 1]);
    }
  }

  lemma {:induction false} EmitStored(gone: set<string>, stored: seq<Step>, steps: seq<Step>,
                                      gen: map<string, WorkflowStep>, exist: map<string, WorkflowStep>)
    requires OldMarked(gone, stored) && forall s :: s in steps ==> s in stored
    ensures Emit(steps, gen, exist) == Retained(gone, stored, steps, exist)
  {
    if steps != [] {
      var s := steps[|steps| - 1];
      EmitStored(gone, stored, steps[..|steps| - 1], gen, exist);
      assert s in stored && forall p :: p in s.policies ==> p in PoliciesOf(stored);
      UndeletedAreStaying(gone, stored, s.policies);
    }
  }

  lemma {:induction false} EmitBrought(steps: seq<Step>, gen: map<string, WorkflowStep>, exist: map<string, WorkflowStep>)
    requires forall s :: s in steps ==> s.state == New
    ensures Emit(steps, gen, exist) == Brought(steps, gen)
  {
    if steps != [] {
      EmitBrought(steps[..|steps| - 1], gen, exist);
    }
  }

  lemma {:induction false} CopiesAre(s: Step, n: nat)
    ensures forall x :: x in Copies(s, n) ==> x == s && n > 0
  {
    if n > 0 {
      CopiesAre(s, n - 1);
    }
  }

  lemma {:induction false} BroughtAreWanted(added: set<string>, gen: seq<Step>)
    ensures forall s :: s in Front(added, gen) + Back(added, gen) ==>
              s in gen && CountWithin(added, s.stepType, s.policies) > 0
    ensures forall s :: s in Front(added, gen) ==> s.stepType == DeployCloudResource
    ensures forall s :: s in Back(added, gen) ==> s.stepType != DeployCloudResource
  {
    if gen != [] {
      var init, s := gen[..|gen| - 1], gen[|gen| - 1];
      BroughtAreWanted(added, init);
      CopiesAre(s, CountWithin(added, s.stepType, s.policies));
      assert forall x :: x in Front(added, init) ==> x in Front(added, init) + Back(added, init);
      assert forall x :: x in Back(added, init) ==> x in Front(added, init) + Back(added, init);
    }
  }

  /** Steps of one name are alike. */
  ghost predicate OneStepPerName(steps: seq<WorkflowStep>) {
    forall i, j :: 0 <= i < j < |steps| && steps[i].name == steps[j].name ==> steps[i] == steps[j]
  }

  lemma {:induction false} LookupFindsNamesake(steps: seq<WorkflowStep>, name: string)
    requires exists w :: w in steps && w.name == name
    ensures Lookup(StepMap(steps), name) in steps && Lookup(StepMap(steps), name).name == name
  {
    var init, last := steps[..|steps| - 1], steps[|steps| - 1];
    if last.name != name {
      var w :| w in steps && w.name == name;
      assert w in init;
      LookupFindsNamesake(init, name);
    }
  }

  /** Steps are found again by name, each as it is, exactly when steps of one name are alike. */
  lemma LookupFindsEachIff(steps: seq<WorkflowStep>)
    ensures OneStepPerName(steps) <==> forall w :: w in steps ==> Lookup(StepMap(steps), w.name) == w
  {
    forall w | w in steps && OneStepPerName(steps)
      ensures Lookup(StepMap(steps), w.name) == w
    {
      LookupFindsNamesake(steps, w.name);
    }
  }

  /** A step that deploys nothing, such as a suspension, is always retained as it was. */
  lemma PlainStepsStay(gone: set<string>, stored: seq<Step>, s: Step, w: WorkflowStep, objs: map<string, Policy>)
    requires Follows(s, w, objs) && w.stepType.Plain?
    ensures Rewritten(gone, stored, s, w) == [w]
  {
    assert s.policies == [];
  }

  /** Only deploy steps are ever modified, so no modified step is dropped. */
  lemma ModifiedIsDeploy(gone: set<string>, s: Step, w: WorkflowStep, objs: map<string, Policy>)
    requires Follows(s, w, objs) && OldVerdict(gone, s, Keep) == Modify
    ensures s.stepType == Deploy && w.properties.Json?
  {
    ModifiedHoldsSeveral(gone, s);
    ObjectsFrom(Track(w, objs.Keys).keys, objs);
  }

  /** A step as it was, but for the policies it names. */
  ghost predicate Continues(after: WorkflowStep, before: WorkflowStep) {
    && after.name == before.name && after.stepType == before.stepType
    && (after.properties == before.properties ||
        (after.properties.Json? && before.properties.Json?
         && after.properties == before.properties.(policies := after.properties.policies)))
  }

  /** `at` places what is written for the first `j` stored steps: in order, one step for each that
      is not deleted, an unmarked one as it was and a modified one but for its policies. */
  ghost predicate InOrder(gone: set<string>, stored: seq<Step>, tracked: seq<WorkflowStep>, j: nat,
                          written: seq<WorkflowStep>, at: seq<nat>)
    requires j <= |stored| == |tracked|
  {
    && |at| == |written|
    && (forall k, l :: 0 <= k < l < |at| ==> at[k] < at[l])
    && (forall i :: 0 <= i < j ==> (i in at <==> OldVerdict(gone, stored[i], Keep) != Delete))
    && (forall k :: 0 <= k < |at| ==>
          && at[k] < j && Continues(written[k], tracked[at[k]])
          && (OldVerdict(gone, stored[at[k]], Keep) == Keep ==> written[k] == tracked[at[k]]))
  }

  lemma {:induction false} RewrittenContinues(gone: set<string>, stored: seq<Step>, s: Step, w: WorkflowStep, objs: map<string, Policy>)
    requires Follows(s, w, objs)
    ensures
      var r := Rewritten(gone, stored, s, w);
      && (OldVerdict(gone, s, Keep) == Delete ==> r == [])
      && (OldVerdict(gone, s, Keep) != Delete ==>
            |r| == 1 && Continues(r[0], w) && (OldVerdict(gone, s, Keep) == Keep ==> r[0] == w))
  {
    if OldVerdict(gone, s, Keep) == Modify {
      ModifiedIsDeploy(gone, s, w, objs);
    }
  }

  /** Where steps of one name are alike, what is written for the stored steps is, in their order, each step that is
      not deleted, as it was but for the policies a modified step names. */
  lemma {:induction false} RetainedInOrder(gone: set<string>, stored: seq<Step>, workflow: seq<WorkflowStep>,
                                           objs: map<string, Policy>, j: nat)
    returns (at: seq<nat>)
    requires OneStepPerName(workflow) && Built(stored, workflow, objs) && j <= |stored|
    ensures InOrder(gone, stored, TrackedSteps(workflow, objs.Keys), j, Retained(gone, stored, stored[..j], StepMap(workflow)), at)
  {
    if j == 0 {
      at := [];
    } else {
      var tracked := TrackedSteps(workflow, objs.Keys);
      var s, w := stored[j - 1], tracked[j - 1];
      at := RetainedInOrder(gone, stored, workflow, objs, j - 1);
      assert stored[..j][..j - 1] == stored[..j - 1];
      assert Follows(s, w, objs) && w in workflow;
      LookupFindsEachIff(workflow);
      RewrittenContinues(gone, stored, s, w, objs);
      var written := Retained(gone, stored, stored[..j - 1], StepMap(workflow));
      at := Extended(gone, stored, tracked, j - 1, written, at, Rewritten(gone, stored, s, w));
    }
  }

  lemma Extended(gone: set<string>, stored: seq<Step>, tracked: seq<WorkflowStep>, j: nat,
                 written: seq<WorkflowStep>, before: seq<nat>, more: seq<WorkflowStep>)
    returns (at: seq<nat>)
    requires j < |stored| == |tracked| && InOrder(gone, stored, tracked, j, written, before)
    requires OldVerdict(gone, stored[j], Keep) == Delete ==> more == []
    requires OldVerdict(gone, stored[j], Keep) != Delete ==>
               |more| == 1 && Continues(more[0], tracked[j]) && (OldVerdict(gone, stored[j], Keep) == Keep ==> more[0] == tracked[j])
    ensures InOrder(gone, stored, tracked, j + 1, written + more, at)
  {
    hide OldVerdict, Continues;
    if more == [] {
      at := before;
      assert written + more == written;
    } else {
      at := before + [j];
      assert at[|before|] == j;
      forall i | 0 <= i < j
        ensures i in at <==> OldVerdict(gone, stored[i], Keep) != Delete
      {
        assert i in at <==> i in before;
      }
    }
  }

  // ---------------------------------------------------------------- what is decided of policies

  ghost function PolicyState(stored: seq<Step>, gen: seq<Step>, p: Policy): State {
    var o, g := AllTargets(stored), AllTargets(gen);
    if p in PoliciesOf(stored) then if WithinSome(Gone(o, g), stored, p) then Delete else Keep
    else if WithinSome(Added(o, g), gen, p) then NewPolicyVerdict(HasCloudStep(stored), p) else Keep
  }

  ghost function DecidedPolicies(stored: seq<Step>, gen: seq<Step>, ps: seq<Policy>): seq<Mark> {
    if ps == [] then []
    else
      var p := ps[|ps| - 1];
      DecidedPolicies(stored, gen, ps[..|ps| - 1]) + [Mark(p.name, p.policyType, PolicyState(stored, gen, p))]
  }

  ghost function DecidedSteps(stored: seq<Step>, gen: seq<Step>, steps: seq<Step>): seq<Mark> {
    if steps == [] then []
    else
      DecidedSteps(stored, gen, steps[..|steps| - 1])
      + DecidedPolicies(stored, gen, steps[|steps| - 1].policies)
  }

  /** What the comparison decides of every policy, step by step. */
  ghost function Decided(stored: seq<Step>, gen: seq<Step>): seq<Mark> {
    DecidedSteps(stored, gen, Assembled(Added(AllTargets(stored), AllTargets(gen)), stored, gen))
  }

  lemma {:induction false} PolicyMarksAreDecided(stored: seq<Step>, gen: seq<Step>, ps: seq<Policy>)
    requires forall p :: p in ps ==> p.state == PolicyState(stored, gen, p)
    ensures PolicyMarks(ps) == DecidedPolicies(stored, gen, ps)
  {
    if ps != [] {
      PolicyMarksAreDecided(stored, gen, ps[..|ps| - 1]);
    }
  }

  lemma {:induction false} MarksAreDecided(stored: seq<Step>, gen: seq<Step>, steps: seq<Step>)
    requires forall p :: p in PoliciesOf(steps) ==> p.state == PolicyState(stored, gen, p)
    ensures Marks(steps) == DecidedSteps(stored, gen, steps)
  {
    if steps != [] {
      var init, s := steps[..|steps| - 1], steps[|steps| - 1];
      assert forall p :: p in PoliciesOf(init) ==> p in PoliciesOf(steps);
      assert forall p :: p in s.policies ==> p in PoliciesOf(steps);
      MarksAreDecided(stored, gen, init);
      PolicyMarksAreDecided(stored, gen, s.policies);
    }
  }

  lemma AssembledFrom(added: set<string>, stored: seq<Step>, gen: seq<Step>)
    ensures forall s :: s in Assembled(added, stored, gen) ==> s in stored || s in gen
    ensures PoliciesOf(Assembled(added, stored, gen)) <= PoliciesOf(stored) + PoliciesOf(gen)
  {
    AssembledParts(added, stored, gen);
    BroughtAreWanted(added, gen);
    assert forall s :: s in Front(added, gen) ==> s in Front(added, gen) + Back(added, gen);
    assert forall s :: s in Back(added, gen) ==> s in Front(added, gen) + Back(added, gen);
  }

  // ---------------------------------------------------------------- UpdateEnvWorkflow

  ghost function NewWorkflow(stored: seq<Step>, gen: seq<Step>, workflow: seq<WorkflowStep>,
                             envSteps: seq<WorkflowStep>): seq<WorkflowStep> {
    var gone, added := Gone(AllTargets(stored), AllTargets(gen)), Added(AllTargets(stored), AllTargets(gen));
    Brought(Front(added, gen), StepMap(envSteps))
    + Retained(gone, stored, stored, StepMap(workflow))
    + Brought(Back(added, gen), StepMap(envSteps))
  }

  ghost predicate NewMarked(stored: seq<Step>, added: set<string>, gen: seq<Step>)
    reads gen, PoliciesOf(gen)
  {
    && (forall s :: s in gen ==> s.state == NewVerdict(added, s, Keep))
    && (forall p :: p in PoliciesOf(gen) ==>
          p.state == if WithinSome(added, gen, p) then NewPolicyVerdict(HasCloudStep(stored), p) else Keep)
  }

  lemma Compared(stored: seq<Step>, gen: seq<Step>, workflow: seq<WorkflowStep>, envSteps: seq<WorkflowStep>)
    requires Separate(stored, gen)
    requires OldMarked(Gone(AllTargets(stored), AllTargets(gen)), stored)
    requires NewMarked(stored, Added(AllTargets(stored), AllTargets(gen)), gen)
    ensures
      var steps := Assembled(Added(AllTargets(stored), AllTargets(gen)), stored, gen);
      && Marks(steps) == Decided(stored, gen)
      && Emit(steps, StepMap(envSteps), StepMap(workflow)) == NewWorkflow(stored, gen, workflow, envSteps)
  {
    var gone, added := Gone(AllTargets(stored), AllTargets(gen)), Added(AllTargets(stored), AllTargets(gen));
    AssembledFrom(added, stored, gen);
    MarksAreDecided(stored, gen, Assembled(added, stored, gen));
    Written(gone, added, stored, gen, StepMap(envSteps), StepMap(workflow));
  }

  // ---------------------------------------------------------------- what survives

  /** The targets a marked step still deploys to, read off its state and its policies' states. */
  ghost function Survivors(s: Step): seq<string>
    reads s, s.policies
  {
    match s.state
    case Delete => []
    case Modify => TargetsOf(s.stepType, Undeleted(s.policies))
    case _ => TargetsOf(s.stepType, s.policies)
  }

  ghost function AllSurvivors(steps: seq<Step>): seq<string>
    reads steps, PoliciesOf(steps)
  {
    if steps == [] then []
    else
      var s := steps[|steps| - 1];
      assert forall p :: p in s.policies ==> p in PoliciesOf(steps);
      assert forall p :: p in PoliciesOf(steps[..|steps| - 1]) ==> p in PoliciesOf(steps);
      AllSurvivors(steps[..|steps| - 1]) + Survivors(s)
  }

  lemma {:induction false} SurvivorsConcat(a: seq<Step>, b: seq<Step>)
    ensures AllSurvivors(a + b) == AllSurvivors(a) + AllSurvivors(b)
  {
    hide Survivors, PoliciesOf;
    if b == [] {
      assert a + b == a;
    } else {
      var init, s := b[..|b| - 1], b[|b| - 1];
      assert (a + b)[..|a + b| - 1] == a + init;
      SurvivorsConcat(a, init);
      assert AllSurvivors(a + b) == AllSurvivors(a + init) + Survivors(s);
    }
  }

  lemma {:induction false} StoredSurvivors(gone: set<string>, stored: seq<Step>, steps: seq<Step>)
    requires OldMarked(gone, stored) && forall s :: s in steps ==> s in stored
    ensures AllSurvivors(steps) == StoredDeploys(gone, stored, steps)
  {
    if steps != [] {
      var s := steps[|steps| - 1];
      StoredSurvivors(gone, stored, steps[..|steps| - 1]);
      assert s in stored && forall p :: p in s.policies ==> p in PoliciesOf(stored);
      UndeletedAreStaying(gone, stored, s.policies);
    }
  }

  lemma {:induction false} BroughtSurvive(steps: seq<Step>)
    requires forall s :: s in steps ==> s.state == New
    ensures AllSurvivors(steps) == AllTargets(steps)
  {
    if steps != [] {
      BroughtSurvive(steps[..|steps| - 1]);
    }
  }

  /** What the marked objects still deploy to after the comparison is what was reckoned from the
      targets alone. */
  lemma SurvivorsAreDeployed(stored: seq<Step>, gen: seq<Step>)
    requires OldMarked(Gone(AllTargets(stored), AllTargets(gen)), stored)
    requires NewMarked(stored, Added(AllTargets(stored), AllTargets(gen)), gen)
    ensures multiset(AllSurvivors(Assembled(Added(AllTargets(stored), AllTargets(gen)), stored, gen))) == Deployed(stored, gen)
  {
    var gone, added := Gone(AllTargets(stored), AllTargets(gen)), Added(AllTargets(stored), AllTargets(gen));
    var front, back := Front(added, gen), Back(added, gen);
    AssembledParts(added, stored, gen);
    BroughtAreWanted(added, gen);
    assert forall s :: s in front ==> s in front + back;
    assert forall s :: s in back ==> s in front + back;
    SurvivorsConcat(front + stored, back);
    SurvivorsConcat(front, stored);
    BroughtSurvive(front);
    BroughtSurvive(back);
    StoredSurvivors(gone, stored, stored);
  }

  method Reconcile(stored: seq<Step>, gen: seq<Step>, workflow: seq<WorkflowStep>, envSteps: seq<WorkflowStep>)
    returns (steps: seq<WorkflowStep>, marks: seq<Mark>)
    requires Separate(stored, gen) && Unmarked(stored) && Unmarked(gen)
    modifies stored, gen, PoliciesOf(stored), PoliciesOf(gen)
    ensures steps == NewWorkflow(stored, gen, workflow, envSteps)
    ensures marks == Decided(stored, gen)
    ensures multiset(AllSurvivors(Assembled(Added(AllTargets(stored), AllTargets(gen)), stored, gen))) == Deployed(stored, gen)
  {
    hide AllSurvivors, Deployed, NewWorkflow;
    var compared := CompareWorkflowSteps(stored, gen);
    steps := GetSteps(compared, envSteps, workflow);
    Compared(stored, gen, workflow, envSteps);
    SurvivorsAreDeployed(stored, gen);
    marks := Marks(compared);
  }

  /** A workflow and the policies before and after it is updated, with the objects compared. */
  ghost predicate Reconciled(workflow: seq<WorkflowStep>, db: Records, envSteps: seq<WorkflowStep>, policies: seq<ApplicationPolicy>,
                             workflow': seq<WorkflowStep>, db': Records, c: Comparison)
  {
    && Compares(workflow, db, envSteps, policies, c)
    && workflow' == NewWorkflow(c.stored, c.gen, workflow, envSteps)
    && db' == After(AllTagged(Decided(c.stored, c.gen)), c.existing, policies, db)
  }

  /** The listed policies and the objects built from stored and generated steps. */
  datatype Comparison = Comparison(existing: seq<ApplicationPolicy>, stored: seq<Step>, gen: seq<Step>,
                                   oldObjs: map<string, Policy>, newObjs: map<string, Policy>)

  ghost predicate Compares(workflow: seq<WorkflowStep>, db: Records, envSteps: seq<WorkflowStep>, policies: seq<ApplicationPolicy>,
                           c: Comparison)
  {
    && Lists(c.existing, db)
    && Built(c.stored, workflow, c.oldObjs) && Describes(Table(c.existing), c.oldObjs)
    && Built(c.gen, envSteps, c.newObjs) && Describes(Table(policies), c.newObjs)
    && Separate(c.stored, c.gen)
  }

  /** Without a workflow there is nothing to update. */
  method UpdateEnvWorkflow(ds: Datastore, envSteps: seq<WorkflowStep>, policies: seq<ApplicationPolicy>)
    returns (ghost c: Comparison)
    requires WellKeyed(ds.records)
    modifies ds
    ensures old(ds.workflow).None? ==> ds.workflow.None? && ds.records == old(ds.records)
    ensures old(ds.workflow).Some? ==>
              && ds.workflow.Some?
              && Reconciled(old(ds.workflow).value, old(ds.records), envSteps, policies, ds.workflow.value, ds.records, c)
  {
    hide NewWorkflow, Decided, Describes, Built;
    c := Comparison([], [], [], map[], map[]);
    if ds.workflow.None? {
      return;
    }
    var workflow := ds.workflow.value;
    var existing := ds.List();
    var old', oldObjs := CreateWorkflowSteps(workflow, existing);
    var new', newObjs := CreateWorkflowSteps(envSteps, policies);
    var steps, marks := Reconcile(old', new', workflow, envSteps);
    c := Comparison(existing, old', new', oldObjs, newObjs);
    ds.workflow := Some(steps);
    WritePolicies(ds, marks, existing, policies);
  }

  method WritePolicies(ds: Datastore, marks: seq<Mark>, existing: seq<ApplicationPolicy>, policies: seq<ApplicationPolicy>)
    modifies ds`records
    ensures ds.records == After(AllTagged(marks), existing, policies, old(ds.records))
  {
    var created, updated, deleted := GetPolicies(marks, existing, policies);
    PickedOnce(policies, AllTagged(marks).created - AllTagged(marks).updated);
    ds.Delete(deleted);
    ds.BatchAdd(created);
    ds.Put(updated);
  }

  lemma Written(gone: set<string>, added: set<string>, stored: seq<Step>, gen: seq<Step>,
                newMaps: map<string, WorkflowStep>, existMaps: map<string, WorkflowStep>)
    requires OldMarked(gone, stored)
    requires forall s :: s in gen ==> s.state == NewVerdict(added, s, Keep)
    ensures Emit(Assembled(added, stored, gen), newMaps, existMaps) ==
            Brought(Front(added, gen), newMaps) + Retained(gone, stored, stored, existMaps) + Brought(Back(added, gen), newMaps)
  {
    AssembledParts(added, stored, gen);
    BroughtAreWanted(added, gen);
    assert forall s :: s in Front(added, gen) ==> s in Front(added, gen) + Back(added, gen);
    assert forall s :: s in Back(added, gen) ==> s in Front(added, gen) + Back(added, gen);
    EmitConcat(Front(added, gen) + stored, Back(added, gen), newMaps, existMaps);
    EmitConcat(Front(added, gen), stored, newMaps, existMaps);
    EmitBrought(Front(added, gen), newMaps, existMaps);
    EmitBrought(Back(added, gen), newMaps, existMaps);
    EmitStored(gone, stored, stored, newMaps, existMaps);
  }
}
