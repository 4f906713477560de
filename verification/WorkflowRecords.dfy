/** Which policy records an updated workflow leaves stored, in terms of the stored and generated
    steps and their targets. */
module WorkflowRecords {
  import opened WorkflowModel
  import opened WorkflowComparison
  import opened WorkflowCoverage
  import opened WorkflowPolicies
  import opened WorkflowReconciliation

  // ---------------------------------------------------------------- what is marked

  lemma MarkedConcat(a: seq<Mark>, b: seq<Mark>, name: string, st: State)
    ensures Marked(a + b, name, st) <==> Marked(a, name, st) || Marked(b, name, st)
  {
    if Marked(a, name, st) {
      var m :| m in a && m.name == name && m.state == st;
      assert m in a + b;
    }
    if Marked(b, name, st) {
      var m :| m in b && m.name == name && m.state == st;
      assert m in a + b;
    }
  }

  /** Some of the policies has the name and is decided so. */
  ghost predicate SomeDecided(stored: seq<Step>, gen: seq<Step>, ps: set<Policy>, name: string, st: State) {
    exists p :: p in ps && p.name == name && PolicyState(stored, gen, p) == st
  }

  ghost function Members(ps: seq<Policy>): set<Policy> {
    set p | p in ps
  }

  lemma {:induction false} PoliciesMarked(stored: seq<Step>, gen: seq<Step>, ps: seq<Policy>, name: string, st: State)
    ensures Marked(DecidedPolicies(stored, gen, ps), name, st) <==> SomeDecided(stored, gen, Members(ps), name, st)
  {
    hide PolicyState, Marked;
    if ps == [] {
      NothingMarked(name, st);
    } else {
      var init, p := ps[..|ps| - 1], ps[|ps| - 1];
      assert Members(ps) == Members(init) + {p} by {
        assert ps == init + [p];
      }
      PoliciesMarked(stored, gen, init, name, st);
      MarkedLast(DecidedPolicies(stored, gen, init), Mark(p.name, p.policyType, PolicyState(stored, gen, p)), name, st);
    }
  }

  lemma {:induction false} StepsMarked(stored: seq<Step>, gen: seq<Step>, steps: seq<Step>, name: string, st: State)
    ensures Marked(DecidedSteps(stored, gen, steps), name, st) <==> SomeDecided(stored, gen, PoliciesOf(steps), name, st)
  {
    hide PolicyState, Marked;
    if steps == [] {
      NothingMarked(name, st);
    } else {
      var init, s := steps[..|steps| - 1], steps[|steps| - 1];
      assert PoliciesOf(steps) == PoliciesOf(init) + Members(s.policies) by {
        assert steps == init + [s];
      }
      StepsMarked(stored, gen, init, name, st);
      PoliciesMarked(stored, gen, s.policies, name, st);
      MarkedConcat(DecidedSteps(stored, gen, init), DecidedPolicies(stored, gen, s.policies), name, st);
    }
  }

  // ---------------------------------------------------------------- in terms of the targets

  ghost function GoneOf(stored: seq<Step>, gen: seq<Step>): set<string> {
    Gone(AllTargets(stored), AllTargets(gen))
  }

  ghost function AddedOf(stored: seq<Step>, gen: seq<Step>): set<string> {
    Added(AllTargets(stored), AllTargets(gen))
  }

  ghost function PlacedSteps(stored: seq<Step>, gen: seq<Step>): seq<Step> {
    Front(AddedOf(stored, gen), gen) + Back(AddedOf(stored, gen), gen)
  }

  /** A stored policy of the name has a step that drops it: all its targets there are gone. */
  ghost predicate DropsSome(stored: seq<Step>, gen: seq<Step>, name: string) {
    exists p :: p in PoliciesOf(stored) && p.name == name && WithinSome(GoneOf(stored, gen), stored, p)
  }

  /** A policy of the name is held on to: a stored one that no step drops, or one that a placed
      step carries along though none of its steps brings it. */
  ghost predicate HoldsSome(stored: seq<Step>, gen: seq<Step>, name: string) {
    || (exists p :: p in PoliciesOf(stored) && p.name == name && !WithinSome(GoneOf(stored, gen), stored, p))
    || (exists p :: p in PoliciesOf(PlacedSteps(stored, gen)) && p.name == name && !WithinSome(AddedOf(stored, gen), gen, p))
  }

  /** A generated policy of the name is brought, to update a record or to create one: env-binding
      policies are updated where a cloud-resource step is stored. */
  ghost predicate BringsSome(stored: seq<Step>, gen: seq<Step>, name: string, updating: bool) {
    exists p :: p in PoliciesOf(gen) && p.name == name && WithinSome(AddedOf(stored, gen), gen, p) &&
                (updating <==> p.policyType == EnvBinding && HasCloudStep(stored))
  }

  lemma {:induction false} BroughtArePlaced(added: set<string>, gen: seq<Step>, s: Step)
    requires s in gen && CountWithin(added, s.stepType, s.policies) > 0
    ensures s in Front(added, gen) + Back(added, gen)
  {
    var init, last := gen[..|gen| - 1], gen[|gen| - 1];
    assert gen == init + [last];
    if s == last {
      assert s in Copies(s, CountWithin(added, s.stepType, s.policies));
    } else {
      BroughtArePlaced(added, init, s);
    }
  }

  lemma {:induction false} SomeWithinCounts(targets: set<string>, stepType: StepType, ps: seq<Policy>, p: Policy)
    requires p in ps && Within(targets, stepType, p)
    ensures CountWithin(targets, stepType, ps) > 0
  {
    var init, last := ps[..|ps| - 1], ps[|ps| - 1];
    assert ps == init + [last];
    if p != last {
      SomeWithinCounts(targets, stepType, init, p);
    }
  }

  lemma BroughtPolicyIsPlaced(added: set<string>, gen: seq<Step>, p: Policy)
    requires WithinSome(added, gen, p)
    ensures p in PoliciesOf(gen) && p in PoliciesOf(Front(added, gen) + Back(added, gen))
  {
    var s :| s in gen && p in s.policies && Within(added, s.stepType, p);
    SomeWithinCounts(added, s.stepType, s.policies, p);
    BroughtArePlaced(added, gen, s);
  }

  lemma AssembledPolicies(stored: seq<Step>, gen: seq<Step>)
    ensures PoliciesOf(Assembled(AddedOf(stored, gen), stored, gen)) == PoliciesOf(stored) + PoliciesOf(PlacedSteps(stored, gen))
    ensures PoliciesOf(PlacedSteps(stored, gen)) <= PoliciesOf(gen)
  {
    var added := AddedOf(stored, gen);
    var front, back := Front(added, gen), Back(added, gen);
    AssembledParts(added, stored, gen);
    BroughtAreWanted(added, gen);
    assert forall s :: s in front + stored + back <==> s in stored || s in front + back;
  }

  /** What the comparison decides of a policy name, in terms of the targets gone and added. */
  lemma DecidedIff(stored: seq<Step>, gen: seq<Step>, name: string)
    requires Separate(stored, gen)
    ensures Marked(Decided(stored, gen), name, Delete) <==> DropsSome(stored, gen, name)
    ensures KeptBySome(Decided(stored, gen), name) <==> HoldsSome(stored, gen, name)
    ensures Marked(Decided(stored, gen), name, Update) <==> BringsSome(stored, gen, name, true)
    ensures Marked(Decided(stored, gen), name, New) <==> BringsSome(stored, gen, name, false)
  {
    var steps := Assembled(AddedOf(stored, gen), stored, gen);
    AssembledPolicies(stored, gen);
    forall st: State
      ensures Marked(Decided(stored, gen), name, st) <==> SomeDecided(stored, gen, PoliciesOf(steps), name, st)
    {
      StepsMarked(stored, gen, steps, name, st);
    }
    forall p | p in PoliciesOf(gen) && WithinSome(AddedOf(stored, gen), gen, p)
      ensures p in PoliciesOf(steps)
    {
      BroughtPolicyIsPlaced(AddedOf(stored, gen), gen, p);
    }
    DecidedCases(stored, gen, PoliciesOf(steps), name);
  }

  lemma DecidedCases(stored: seq<Step>, gen: seq<Step>, ps: set<Policy>, name: string)
    requires Separate(stored, gen)
    requires ps == PoliciesOf(stored) + PoliciesOf(PlacedSteps(stored, gen))
    requires PoliciesOf(PlacedSteps(stored, gen)) <= PoliciesOf(gen)
    requires forall p :: p in PoliciesOf(gen) && WithinSome(AddedOf(stored, gen), gen, p) ==> p in ps
    ensures SomeDecided(stored, gen, ps, name, Delete) <==> DropsSome(stored, gen, name)
    ensures SomeDecided(stored, gen, ps, name, Keep) <==> HoldsSome(stored, gen, name)
    ensures !SomeDecided(stored, gen, ps, name, Modify)
    ensures SomeDecided(stored, gen, ps, name, Update) <==> BringsSome(stored, gen, name, true)
    ensures SomeDecided(stored, gen, ps, name, New) <==> BringsSome(stored, gen, name, false)
  {
    hide WithinSome, HasCloudStep, Gone, Added, PoliciesOf, PlacedSteps;
    var gone, added := GoneOf(stored, gen), AddedOf(stored, gen);
    forall p | p in ps
      ensures p in PoliciesOf(stored) ==> PolicyState(stored, gen, p) == if WithinSome(gone, stored, p) then Delete else Keep
      ensures p !in PoliciesOf(stored) ==>
                PolicyState(stored, gen, p) ==
                if !WithinSome(added, gen, p) then Keep
                else if p.policyType == EnvBinding && HasCloudStep(stored) then Update else New
    {
    }
  }

  // ---------------------------------------------------------------- what is stored

  /** Policies of one name are all env-binding policies or none is, and env-binding policies are named. */
  ghost predicate KindsAgree(stored: seq<Step>, gen: seq<Step>) {
    forall p, q :: p in PoliciesOf(stored) + PoliciesOf(gen) && q in PoliciesOf(stored) + PoliciesOf(gen) && p.policyType == EnvBinding ==>
      p.name != "" && (p.name == q.name ==> q.policyType == EnvBinding)
  }

  ghost predicate IsEnvBinding(stored: seq<Step>, gen: seq<Step>, name: string) {
    exists p :: p in PoliciesOf(stored) + PoliciesOf(gen) && p.name == name && p.policyType == EnvBinding
  }

  /** The record is deleted: it is listed, some step drops the policy and, for an env-binding policy,
      nothing holds on to it. */
  ghost predicate Deleted(stored: seq<Step>, gen: seq<Step>, existing: seq<ApplicationPolicy>, name: string) {
    && name in NamesOf(existing) && DropsSome(stored, gen, name)
    && (IsEnvBinding(stored, gen, name) ==> !HoldsSome(stored, gen, name))
  }

  /** The record is to be created: it is generated, brought, and not to be updated. */
  ghost predicate Created(stored: seq<Step>, gen: seq<Step>, generated: seq<ApplicationPolicy>, name: string) {
    name in NamesOf(generated) && BringsSome(stored, gen, name, false) && !BringsSome(stored, gen, name, true)
  }

  /** A record to be created is stored already and stays. */
  ghost predicate Blocked(stored: seq<Step>, gen: seq<Step>, existing: seq<ApplicationPolicy>,
                          generated: seq<ApplicationPolicy>, db: Records) {
    exists n :: n in db && Created(stored, gen, generated, n) && !Deleted(stored, gen, existing, n)
  }

  ghost function RecordsAfter(stored: seq<Step>, gen: seq<Step>, existing: seq<ApplicationPolicy>,
                              generated: seq<ApplicationPolicy>, db: Records): Records {
    After(AllTagged(Decided(stored, gen)), existing, generated, db)
  }

  lemma TypesOfMarks(stored: seq<Step>, gen: seq<Step>, steps: seq<Step>)
    requires PoliciesOf(steps) <= PoliciesOf(stored) + PoliciesOf(gen)
    ensures forall m :: m in DecidedSteps(stored, gen, steps) ==>
              exists p :: p in PoliciesOf(stored) + PoliciesOf(gen) && p.name == m.name && p.policyType == m.policyType
  {
    forall m | m in DecidedSteps(stored, gen, steps)
      ensures exists p :: p in PoliciesOf(stored) + PoliciesOf(gen) && p.name == m.name && p.policyType == m.policyType
    {
      var p := MarkOfStep(stored, gen, steps, m);
    }
  }

  lemma {:induction false} MarkOfPolicy(stored: seq<Step>, gen: seq<Step>, ps: seq<Policy>, m: Mark) returns (p: Policy)
    requires m in DecidedPolicies(stored, gen, ps)
    ensures p in ps && p.name == m.name && p.policyType == m.policyType
  {
    hide PolicyState;
    var init, last := ps[..|ps| - 1], ps[|ps| - 1];
    assert ps == init + [last];
    if m in DecidedPolicies(stored, gen, init) {
      p := MarkOfPolicy(stored, gen, init, m);
    } else {
      p := last;
    }
  }

  lemma {:induction false} MarkOfStep(stored: seq<Step>, gen: seq<Step>, steps: seq<Step>, m: Mark) returns (p: Policy)
    requires m in DecidedSteps(stored, gen, steps)
    ensures p in PoliciesOf(steps) && p.name == m.name && p.policyType == m.policyType
  {
    var init, s := steps[..|steps| - 1], steps[|steps| - 1];
    assert steps == init + [s];
    if m in DecidedSteps(stored, gen, init) {
      p := MarkOfStep(stored, gen, init, m);
    } else {
      p := MarkOfPolicy(stored, gen, s.policies, m);
    }
  }

  lemma TagsIff(stored: seq<Step>, gen: seq<Step>, existing: seq<ApplicationPolicy>, generated: seq<ApplicationPolicy>, name: string)
    requires Separate(stored, gen) && KindsAgree(stored, gen)
    ensures Dropped(AllTagged(Decided(stored, gen)), existing, name) <==> Deleted(stored, gen, existing, name)
    ensures Wanted(AllTagged(Decided(stored, gen)), generated, name) <==> Created(stored, gen, generated, name)
  {
    hide DropsSome, HoldsSome, BringsSome, Marked;
    var ms := Decided(stored, gen);
    DecidedIff(stored, gen, name);
    TagsOfName(ms, name);
    AssembledFrom(AddedOf(stored, gen), stored, gen);
    TypesOfMarks(stored, gen, Assembled(AddedOf(stored, gen), stored, gen));
    if IsEnvBinding(stored, gen, name) {
      SharedPolicyDeletedIff(ms, name);
    } else {
      UnsharedPolicyDeletedIff(ms, name);
    }
  }

  /** A policy is stored after the update exactly when it was stored and is not deleted, or is to be
      created and nothing to be created is in the way. */
  lemma PolicyStoredIff(stored: seq<Step>, gen: seq<Step>, existing: seq<ApplicationPolicy>, generated: seq<ApplicationPolicy>,
                        db: Records, name: string)
    requires Separate(stored, gen) && KindsAgree(stored, gen)
    ensures name in RecordsAfter(stored, gen, existing, generated, db) <==>
            (name in db && !Deleted(stored, gen, existing, name)) ||
            (Created(stored, gen, generated, name) && !Blocked(stored, gen, existing, generated, db))
  {
    hide Dropped, Wanted, Deleted, Created, KindsAgree;
    var t := AllTagged(Decided(stored, gen));
    forall n
      ensures Dropped(t, existing, n) <==> Deleted(stored, gen, existing, n)
      ensures Wanted(t, generated, n) <==> Created(stored, gen, generated, n)
    {
      TagsIff(stored, gen, existing, generated, n);
    }
    PolicySurvivesIff(t, existing, generated, db, name);
  }

  /** What a record is after the update, in terms of the steps and their targets: as generated where it
      stays and generated steps bring it to be updated, or where it is created; as it was where it
      stays otherwise. */
  lemma RecordAfterwards(stored: seq<Step>, gen: seq<Step>, existing: seq<ApplicationPolicy>, generated: seq<ApplicationPolicy>,
                         db: Records, name: string)
    requires Separate(stored, gen) && KindsAgree(stored, gen)
    ensures
      var after := RecordsAfter(stored, gen, existing, generated, db);
      var stays := name in db && !Deleted(stored, gen, existing, name);
      var updates := BringsSome(stored, gen, name, true) && name in NamesOf(generated);
      && (stays && updates ==> name in after && after[name].name == name && IsFirst(generated, after[name]))
      && (stays && !updates ==> name in after && after[name] == db[name])
      && (Created(stored, gen, generated, name) && !Blocked(stored, gen, existing, generated, db) ==>
            name in after && after[name].name == name && IsFirst(generated, after[name]))
  {
    hide Deleted, Created, KindsAgree, Dropped, Wanted, IsFirst, After, Marked, BringsSome, DropsSome, HoldsSome;
    var t := AllTagged(Decided(stored, gen));
    forall n
      ensures Dropped(t, existing, n) <==> Deleted(stored, gen, existing, n)
      ensures Wanted(t, generated, n) <==> Created(stored, gen, generated, n)
    {
      TagsIff(stored, gen, existing, generated, n);
    }
    DecidedIff(stored, gen, name);
    TagsOfName(Decided(stored, gen), name);
    RecordContent(t, existing, generated, db, name);
  }

  /** Where a cloud-resource step is stored, a listed env-binding policy is lost exactly when some step
      drops it and nothing holds on to it, even if generated steps bring it for other targets. */
  lemma EnvBindingLostIff(stored: seq<Step>, gen: seq<Step>, existing: seq<ApplicationPolicy>, generated: seq<ApplicationPolicy>,
                          db: Records, name: string)
    requires Separate(stored, gen) && KindsAgree(stored, gen) && HasCloudStep(stored)
    requires name in db && name in NamesOf(existing) && IsEnvBinding(stored, gen, name)
    ensures name !in RecordsAfter(stored, gen, existing, generated, db) <==>
            DropsSome(stored, gen, name) && !HoldsSome(stored, gen, name)
  {
    hide DropsSome, HoldsSome, RecordsAfter, HasCloudStep, WithinSome;
    PolicyStoredIff(stored, gen, existing, generated, db, name);
    assert !BringsSome(stored, gen, name, false);
  }

  // ---------------------------------------------------------------- what steps still name

  /** What an entry under a key has of the record it comes from: topology policies are named by their
      own names. */
  ghost predicate FromRecord(k: string, info: Info, r: ApplicationPolicy) {
    && r.name == info.name && r.policyType == info.policyType
    && (info.policyType == EnvBinding ||
        (info.policyType == Topology && k == info.name && r.spec.TopologySpec?
         && info.targets == ClusterTargets(r.spec.clusters, r.spec.topologyNamespace)))
  }

  lemma {:induction false} EnvEntry(table: map<string, Info>, name: string, envs: seq<EnvConfig>, k: string)
    requires k in WithEnvs(table, name, envs)
    ensures (k in table && WithEnvs(table, name, envs)[k] == table[k]) ||
            (WithEnvs(table, name, envs)[k].name == name && WithEnvs(table, name, envs)[k].policyType == EnvBinding)
  {
    if envs != [] {
      var e := envs[|envs| - 1];
      if k != name + "-" + e.envName {
        EnvEntry(table, name, envs[..|envs| - 1], k);
      }
    }
  }

  /** Every entry of the table comes from a record. */
  lemma {:induction false} TableEntry(policies: seq<ApplicationPolicy>, k: string) returns (r: ApplicationPolicy)
    requires k in Table(policies)
    ensures r in policies && FromRecord(k, Table(policies)[k], r)
  {
    var init, last := policies[..|policies| - 1], policies[|policies| - 1];
    assert policies == init + [last];
    if last.policyType == Topology && last.spec.TopologySpec? && k == last.name {
      r := last;
    } else if last.policyType == EnvBinding && last.spec.EnvBindingSpec? {
      EnvEntry(Table(init), last.name, last.spec.envs, k);
      if k in Table(init) && Table(policies)[k] == Table(init)[k] {
        r := TableEntry(init, k);
      } else {
        r := last;
      }
    } else {
      r := TableEntry(init, k);
    }
  }

  lemma PolicyRecord(steps: seq<Step>, workflow: seq<WorkflowStep>, policies: seq<ApplicationPolicy>, objs: map<string, Policy>, p: Policy)
    returns (k: string, r: ApplicationPolicy)
    requires Built(steps, workflow, objs) && Describes(Table(policies), objs) && p in PoliciesOf(steps)
    ensures k in objs && objs[k] == p && r in policies && FromRecord(k, Info(p.name, p.policyType, p.targets), r)
  {
    BuiltPolicies(steps, workflow, objs);
    k :| k in objs && objs[k] == p;
    r := TableEntry(policies, k);
  }

  lemma SameRecord(policies: seq<ApplicationPolicy>, a: ApplicationPolicy, b: ApplicationPolicy)
    requires OncePerName(policies) && a in policies && b in policies && a.name == b.name
    ensures a == b
  {
    var i :| 0 <= i < |policies| && policies[i] == a;
    var j :| 0 <= j < |policies| && policies[j] == b;
    assert i == j;
  }

  lemma OneTopologyPerName(steps: seq<Step>, workflow: seq<WorkflowStep>, policies: seq<ApplicationPolicy>,
                           objs: map<string, Policy>, p: Policy, q: Policy)
    requires OncePerName(policies) && Built(steps, workflow, objs) && Describes(Table(policies), objs)
    requires p in PoliciesOf(steps) && q in PoliciesOf(steps) && p.name == q.name && p.policyType != EnvBinding
    ensures p == q
  {
    hide Built, Table, PoliciesOf;
    var k, r := PolicyRecord(steps, workflow, policies, objs, p);
    var k', r' := PolicyRecord(steps, workflow, policies, objs, q);
    SameRecord(policies, r, r');
  }

  /** A topology policy's record is deleted exactly when some step drops the policy, even where
      another step that shares it keeps it. */
  lemma TopologyDeletedIff(workflow: seq<WorkflowStep>, db: Records, envSteps: seq<WorkflowStep>, policies: seq<ApplicationPolicy>,
                           c: Comparison, p: Policy)
    requires Compares(workflow, db, envSteps, policies, c) && KindsAgree(c.stored, c.gen)
    requires p in PoliciesOf(c.stored) && p.policyType != EnvBinding
    ensures Deleted(c.stored, c.gen, c.existing, p.name) <==> WithinSome(GoneOf(c.stored, c.gen), c.stored, p)
  {
    hide WithinSome, Built, Table, PoliciesOf;
    var k, r := PolicyRecord(c.stored, workflow, c.existing, c.oldObjs, p);
    forall q | q in PoliciesOf(c.stored) && q.name == p.name
      ensures q == p
    {
      OneTopologyPerName(c.stored, workflow, c.existing, c.oldObjs, p, q);
    }
  }

  /** A stored policy that no step drops is still stored afterwards. */
  lemma KeptPolicyStays(workflow: seq<WorkflowStep>, db: Records, envSteps: seq<WorkflowStep>, policies: seq<ApplicationPolicy>,
                        c: Comparison, p: Policy)
    requires Compares(workflow, db, envSteps, policies, c) && KindsAgree(c.stored, c.gen)
    requires p in PoliciesOf(c.stored) && !WithinSome(GoneOf(c.stored, c.gen), c.stored, p)
    ensures p.name in db && !Deleted(c.stored, c.gen, c.existing, p.name)
    ensures p.name in RecordsAfter(c.stored, c.gen, c.existing, policies, db)
  {
    hide RecordsAfter, WithinSome, Built, Table, PoliciesOf;
    var k, r := PolicyRecord(c.stored, workflow, c.existing, c.oldObjs, p);
    if p.policyType != EnvBinding {
      TopologyDeletedIff(workflow, db, envSteps, policies, c, p);
    }
    PolicyStoredIff(c.stored, c.gen, c.existing, policies, db, p.name);
  }

  /** The policies that written steps name: those left to the stored steps, and those of the placed
      steps. */
  ghost function StillNamed(stored: seq<Step>, gen: seq<Step>): set<Policy> {
    (set s, p | s in stored && p in Left(GoneOf(stored, gen), stored, s) :: p) + PoliciesOf(PlacedSteps(stored, gen))
  }

  /** Of these, the ones whose records may be missing: those of the placed steps, and those a stored
      step keeps while another step drops them. */
  ghost function AtRisk(stored: seq<Step>, gen: seq<Step>): set<Policy> {
    PoliciesOf(PlacedSteps(stored, gen)) +
    set p | p in StillNamed(stored, gen) && p in PoliciesOf(stored) && WithinSome(GoneOf(stored, gen), stored, p)
  }

  lemma {:induction false} StayingFrom(gone: set<string>, stored: seq<Step>, ps: seq<Policy>)
    ensures forall i :: 0 <= i < |Staying(gone, stored, ps)| ==> Staying(gone, stored, ps)[i] in ps
  {
    if ps != [] {
      StayingFrom(gone, stored, ps[..|ps| - 1]);
      assert ps == ps[..|ps| - 1] + [ps[|ps| - 1]];
    }
  }

  lemma StillNamedFrom(stored: seq<Step>, gen: seq<Step>, p: Policy)
    requires p in StillNamed(stored, gen) && p !in PoliciesOf(PlacedSteps(stored, gen))
    ensures p in PoliciesOf(stored)
  {
    var s :| s in stored && p in Left(GoneOf(stored, gen), stored, s);
    StayingFrom(GoneOf(stored, gen), stored, s.policies);
  }

  /** Every policy that a written step names is stored exactly when those at risk survive. */
  lemma EveryNamedStoredIff(workflow: seq<WorkflowStep>, db: Records, envSteps: seq<WorkflowStep>, policies: seq<ApplicationPolicy>,
                            c: Comparison)
    requires Compares(workflow, db, envSteps, policies, c) && KindsAgree(c.stored, c.gen)
    ensures (forall p :: p in StillNamed(c.stored, c.gen) ==> p.name in RecordsAfter(c.stored, c.gen, c.existing, policies, db)) <==>
            (forall p :: p in AtRisk(c.stored, c.gen) ==>
               (p.name in db && !Deleted(c.stored, c.gen, c.existing, p.name)) ||
               (Created(c.stored, c.gen, policies, p.name) && !Blocked(c.stored, c.gen, c.existing, policies, db)))
  {
    hide RecordsAfter, WithinSome, Deleted, Created, Blocked, PoliciesOf, PlacedSteps, Left, KindsAgree, Built, Table, Describes, Separate;
    forall p | p in StillNamed(c.stored, c.gen)
      ensures p.name in RecordsAfter(c.stored, c.gen, c.existing, policies, db) <==>
              p !in AtRisk(c.stored, c.gen) ||
              (p.name in db && !Deleted(c.stored, c.gen, c.existing, p.name)) ||
              (Created(c.stored, c.gen, policies, p.name) && !Blocked(c.stored, c.gen, c.existing, policies, db))
    {
      PolicyStoredIff(c.stored, c.gen, c.existing, policies, db, p.name);
      if p !in AtRisk(c.stored, c.gen) {
        StillNamedFrom(c.stored, c.gen, p);
        KeptPolicyStays(workflow, db, envSteps, policies, c, p);
      }
    }
  }

  /** A brought policy is stored afterwards: one that updates, exactly when its record is there and
      not deleted; one that creates, also when nothing to be created is in the way. */
  lemma BroughtPolicyStoredIff(workflow: seq<WorkflowStep>, db: Records, envSteps: seq<WorkflowStep>, policies: seq<ApplicationPolicy>,
                               c: Comparison, p: Policy)
    requires Compares(workflow, db, envSteps, policies, c) && KindsAgree(c.stored, c.gen)
    requires WithinSome(AddedOf(c.stored, c.gen), c.gen, p)
    ensures p.name in RecordsAfter(c.stored, c.gen, c.existing, policies, db) <==>
            (p.name in db && !Deleted(c.stored, c.gen, c.existing, p.name)) ||
            (!(p.policyType == EnvBinding && HasCloudStep(c.stored)) && !Blocked(c.stored, c.gen, c.existing, policies, db))
  {
    hide RecordsAfter, Deleted, Blocked, Built, Table;
    BroughtPolicyIsPlaced(AddedOf(c.stored, c.gen), c.gen, p);
    var k, r := PolicyRecord(c.gen, envSteps, policies, c.newObjs, p);
    hide WithinSome, HasCloudStep, Describes, Separate, PoliciesOf;
    PolicyStoredIff(c.stored, c.gen, c.existing, policies, db, p.name);
  }
}
