/** Reading a workflow of deploy steps back after it was updated: it deploys to the targets the
    comparison reckoned with; a further update changes no record, and writes the same steps exactly
    when steps of one name are alike. */
module WorkflowReread {
  import opened Slices
  import opened WorkflowModel
  import opened WorkflowComparison
  import opened WorkflowCoverage
  import opened WorkflowPolicies
  import opened WorkflowReconciliation
  import opened WorkflowRecords
  import opened WorkflowNamesakes

  // ---------------------------------------------------------------- reading

  /** The targets of the policies a deploy step names, as far as they are known. */
  function NamedTargets(names: seq<string>, table: map<string, Info>): seq<string> {
    if names == [] then []
    else
      var n := names[|names| - 1];
      NamedTargets(names[..|names| - 1], table) + if n in table then table[n].targets else []
  }

  function ReadStep(table: map<string, Info>, w: WorkflowStep): seq<string> {
    if w.stepType == Deploy && w.properties.Json? then NamedTargets(w.properties.policies, table) else []
  }

  function ReadAll(table: map<string, Info>, ws: seq<WorkflowStep>): seq<string> {
    if ws == [] then [] else ReadAll(table, ws[..|ws| - 1]) + ReadStep(table, ws[|ws| - 1])
  }

  ghost predicate DeployOnly(ws: seq<WorkflowStep>) {
    forall w :: w in ws ==> w.stepType == Deploy || w.stepType.Plain?
  }

  lemma {:induction false} ReadConcat(table: map<string, Info>, a: seq<WorkflowStep>, b: seq<WorkflowStep>)
    ensures ReadAll(table, a + b) == ReadAll(table, a) + ReadAll(table, b)
  {
    hide ReadStep;
    if b == [] {
      assert a + b == a;
    } else {
      assert (a + b)[..|a + b| - 1] == a + b[..|b| - 1];
      ReadConcat(table, a, b[..|b| - 1]);
    }
  }

  lemma {:induction false} KnownTargets(names: seq<string>, table: map<string, Info>, objs: map<string, Policy>)
    requires Describes(table, objs)
    ensures TargetsOf(Deploy, Objects(Known(names, objs.Keys), objs)) == NamedTargets(names, table)
  {
    if names != [] {
      var init, n := names[..|names| - 1], names[|names| - 1];
      KnownTargets(init, table, objs);
      var known := Known(init, objs.Keys);
      if n in objs {
        assert (known + [n])[..|known|] == known;
        var os := Objects(known, objs);
        assert (os + [objs[n]])[..|os|] == os;
      } else {
        assert known + [] == known;
      }
    }
  }

  lemma FollowsReads(s: Step, w: WorkflowStep, table: map<string, Info>, objs: map<string, Policy>)
    requires Describes(table, objs) && Follows(s, w, objs) && (w.stepType == Deploy || w.stepType.Plain?)
    ensures TargetsOf(s.stepType, s.policies) == ReadStep(table, w)
    ensures w.stepType == Deploy ==> w.properties.Json?
  {
    if w.stepType == Deploy {
      KnownTargets(w.properties.policies, table, objs);
    }
  }

  lemma {:induction false} BuiltReads(steps: seq<Step>, ws: seq<WorkflowStep>, table: map<string, Info>, objs: map<string, Policy>)
    requires Describes(table, objs) && Built(steps, ws, objs) && DeployOnly(ws)
    ensures AllTargets(steps) == ReadAll(table, ws)
  {
    hide Describes, Follows, ReadStep, TargetsOf, Track;
    if ws != [] {
      var init, w := ws[..|ws| - 1], ws[|ws| - 1];
      assert w in ws && forall x :: x in init ==> x in ws;
      if Track(w, objs.Keys).Tracked? {
        var n := |steps| - 1;
        assert Follows(steps[n], w, objs);
        assert Built(steps[..n], init, objs);
        BuiltReads(steps[..n], init, table, objs);
        FollowsReads(steps[n], w, table, objs);
      } else {
        assert Built(steps, init, objs);
        BuiltReads(steps, init, table, objs);
        UntrackedReadsNothing(w, table, objs);
        assert ReadAll(table, init) + [] == ReadAll(table, init);
      }
    }
  }

  lemma UntrackedReadsNothing(w: WorkflowStep, table: map<string, Info>, objs: map<string, Policy>)
    requires Track(w, objs.Keys).Untracked? && (w.stepType == Deploy || w.stepType.Plain?)
    ensures ReadStep(table, w) == []
  {
  }

  // ---------------------------------------------------------------- the records afterwards

  ghost predicate TopologyOnly(policies: seq<ApplicationPolicy>) {
    forall r :: r in policies ==> r.policyType == Topology
  }

  /** Deploy steps with topology policies, each found by its name. */
  ghost predicate Deploying(workflow: seq<WorkflowStep>, db: Records, envSteps: seq<WorkflowStep>, policies: seq<ApplicationPolicy>,
                            c: Comparison)
  {
    && Compares(workflow, db, envSteps, policies, c)
    && DeployOnly(workflow) && DeployOnly(envSteps)
    && TopologyOnly(c.existing) && TopologyOnly(policies) && OncePerName(policies)
    && OneStepPerName(workflow) && OneStepPerName(envSteps)
  }

  lemma TopologyKinds(workflow: seq<WorkflowStep>, db: Records, envSteps: seq<WorkflowStep>, policies: seq<ApplicationPolicy>, c: Comparison)
    requires Deploying(workflow, db, envSteps, policies, c)
    ensures forall p :: p in PoliciesOf(c.stored) + PoliciesOf(c.gen) ==> p.policyType == Topology
    ensures KindsAgree(c.stored, c.gen)
  {
    hide PoliciesOf, Built, Table, Describes;
    forall p | p in PoliciesOf(c.stored) + PoliciesOf(c.gen)
      ensures p.policyType == Topology
    {
      if p in PoliciesOf(c.stored) {
        var k, r := PolicyRecord(c.stored, workflow, c.existing, c.oldObjs, p);
      } else {
        var k, r := PolicyRecord(c.gen, envSteps, policies, c.newObjs, p);
      }
    }
  }

  lemma {:induction false} NonePicked(records: seq<ApplicationPolicy>)
    ensures Picked(records, {}) == []
  {
    if records != [] {
      NonePicked(records[1..]);
    }
  }

  lemma NoneUpdated(workflow: seq<WorkflowStep>, db: Records, envSteps: seq<WorkflowStep>, policies: seq<ApplicationPolicy>, c: Comparison)
    requires Deploying(workflow, db, envSteps, policies, c)
    ensures AllTagged(Decided(c.stored, c.gen)).updated == {}
  {
    var ms := Decided(c.stored, c.gen);
    TopologyKinds(workflow, db, envSteps, policies, c);
    forall n
      ensures n !in AllTagged(ms).updated
    {
      hide Deploying, Marked, KindsAgree, PoliciesOf;
      TagsOfName(ms, n);
      assert Separate(c.stored, c.gen) by {
        DeployingSeparate(workflow, db, envSteps, policies, c);
      }
      DecidedIff(c.stored, c.gen, n);
    }
  }

  lemma DeployingSeparate(workflow: seq<WorkflowStep>, db: Records, envSteps: seq<WorkflowStep>, policies: seq<ApplicationPolicy>, c: Comparison)
    requires Deploying(workflow, db, envSteps, policies, c)
    ensures Separate(c.stored, c.gen)
  {
  }

  ghost function Afterwards(c: Comparison, policies: seq<ApplicationPolicy>, db: Records): Records {
    RecordsAfter(c.stored, c.gen, c.existing, policies, db)
  }

  /** Each record is one that was there and is not deleted, unchanged, or a created one. */
  lemma RecordAfter(workflow: seq<WorkflowStep>, db: Records, envSteps: seq<WorkflowStep>, policies: seq<ApplicationPolicy>,
                    c: Comparison, n: string)
    requires Deploying(workflow, db, envSteps, policies, c)
    ensures n in db && !Deleted(c.stored, c.gen, c.existing, n) ==>
              n in Afterwards(c, policies, db) && Afterwards(c, policies, db)[n] == db[n]
    ensures Created(c.stored, c.gen, policies, n) && !Blocked(c.stored, c.gen, c.existing, policies, db) ==>
              && n in Afterwards(c, policies, db)
              && Afterwards(c, policies, db)[n] in policies && Afterwards(c, policies, db)[n].name == n
    ensures n in Afterwards(c, policies, db) ==>
              (n in db && Afterwards(c, policies, db)[n] == db[n]) || Created(c.stored, c.gen, policies, n)
  {
    var t := AllTagged(Decided(c.stored, c.gen));
    NoneUpdated(workflow, db, envSteps, policies, c);
    NonePicked(policies);
    TopologyKinds(workflow, db, envSteps, policies, c);
    DeployingSeparate(workflow, db, envSteps, policies, c);
    forall m
      ensures Dropped(t, c.existing, m) <==> Deleted(c.stored, c.gen, c.existing, m)
      ensures Wanted(t, policies, m) <==> Created(c.stored, c.gen, policies, m)
    {
      TagsIff(c.stored, c.gen, c.existing, policies, m);
    }
    hide Deploying, KindsAgree, Separate, Deleted, Created, Decided, AllTagged;
    RecordsPlain(t, c.existing, policies, db, n);
  }

  lemma RecordsPlain(t: Tags, existing: seq<ApplicationPolicy>, generated: seq<ApplicationPolicy>, db: Records, n: string)
    requires t.updated == {} && Picked(generated, {}) == []
    ensures n in db && !Dropped(t, existing, n) ==>
              n in After(t, existing, generated, db) && After(t, existing, generated, db)[n] == db[n]
    ensures Wanted(t, generated, n) && !Collides(t, existing, generated, db) ==>
              && n in After(t, existing, generated, db)
              && After(t, existing, generated, db)[n] in generated && After(t, existing, generated, db)[n].name == n
    ensures n in After(t, existing, generated, db) ==>
              (n in db && After(t, existing, generated, db)[n] == db[n]) || Wanted(t, generated, n)
  {
    PickedOnce(generated, t.created - t.updated);
    PickedOnce(existing, t.deleted);
    var created, left := Picked(generated, t.created - t.updated), db - NamesOf(Picked(existing, t.deleted));
    assert After(t, existing, generated, db) == AddAll(left, created);
    assert n in NamesOf(created) <==> Wanted(t, generated, n);
    assert n in left <==> n in db && !Dropped(t, existing, n);
    assert (forall m :: m in left ==> m !in NamesOf(created)) <==> !Collides(t, existing, generated, db) by {
      assert forall m :: m in NamesOf(created) <==> Wanted(t, generated, m);
      assert forall m :: m in left <==> m in db && !Dropped(t, existing, m);
    }
    if n in NamesOf(created) {
      NamedHolds(created, n);
    }
  }

  // ---------------------------------------------------------------- the table afterwards

  function Described(r: ApplicationPolicy): Info
    requires r.spec.TopologySpec?
  {
    Info(r.name, Topology, ClusterTargets(r.spec.clusters, r.spec.topologyNamespace))
  }

  lemma UnreadableLast(ps: seq<ApplicationPolicy>, p: ApplicationPolicy)
    requires p.policyType == Topology && !p.spec.TopologySpec?
    ensures Table(ps + [p]) == Table(ps)
  {
    assert (ps + [p])[..|ps|] == ps;
  }

  lemma {:induction false} TableHolds(policies: seq<ApplicationPolicy>, r: ApplicationPolicy)
    requires OncePerName(policies) && TopologyOnly(policies) && r in policies && r.spec.TopologySpec?
    ensures r.name in Table(policies) && Table(policies)[r.name] == Described(r)
  {
    var init, last := policies[..|policies| - 1], policies[|policies| - 1];
    assert policies == init + [last] && last in policies;
    if last.spec.TopologySpec? {
      TopologyLast(init, last);
    } else {
      UnreadableLast(init, last);
    }
    hide Table;
    if r != last {
      assert r in init && forall x :: x in init ==> x in policies;
      var i :| 0 <= i < |init| && init[i] == r;
      assert policies[i].name != last.name;
      TableHolds(init, r);
    }
  }

  /** The known policies are the readable topology records. */
  lemma TopologyTable(policies: seq<ApplicationPolicy>, n: string)
    requires OncePerName(policies) && TopologyOnly(policies)
    ensures n in Table(policies) <==> exists r :: r in policies && r.name == n && r.spec.TopologySpec?
    ensures forall r :: r in policies && r.name == n && r.spec.TopologySpec? ==> n in Table(policies) && Table(policies)[n] == Described(r)
  {
    forall r | r in policies && r.name == n && r.spec.TopologySpec?
      ensures n in Table(policies) && Table(policies)[n] == Described(r)
    {
      TableHolds(policies, r);
    }
    if n in Table(policies) {
      var r := TableEntry(policies, n);
    }
  }

  /** What a listing of stored topology records knows under a name. */
  lemma ListedTable(existing: seq<ApplicationPolicy>, db: Records, n: string)
    requires Lists(existing, db) && TopologyOnly(existing) && WellKeyed(db)
    ensures n in Table(existing) <==> n in db && db[n].policyType == Topology && db[n].spec.TopologySpec?
    ensures n in Table(existing) ==> Table(existing)[n] == Described(db[n])
  {
    hide Table;
    TopologyTable(existing, n);
    if n in db && db[n].policyType == Topology && db[n].spec.TopologySpec? {
      assert db[n] in existing;
    }
  }

  /** The update as a run: what was there, what is there, and what a listing of it knows. */
  ghost predicate Listed(c: Comparison, policies: seq<ApplicationPolicy>, db: Records, existing': seq<ApplicationPolicy>) {
    WellKeyed(db) && Lists(existing', Afterwards(c, policies, db))
  }

  lemma ListedTopologies(workflow: seq<WorkflowStep>, db: Records, envSteps: seq<WorkflowStep>, policies: seq<ApplicationPolicy>,
                         c: Comparison, existing': seq<ApplicationPolicy>)
    requires Deploying(workflow, db, envSteps, policies, c) && Listed(c, policies, db, existing')
    requires !Blocked(c.stored, c.gen, c.existing, policies, db)
    ensures TopologyOnly(existing') && WellKeyed(Afterwards(c, policies, db))
  {
    AfterKeyed(AllTagged(Decided(c.stored, c.gen)), c.existing, policies, db);
    hide Afterwards, Blocked, Created, Deleted;
    forall r | r in existing'
      ensures r.policyType == Topology
    {
      RecordAfter(workflow, db, envSteps, policies, c, r.name);
      if r.name in db && db[r.name] == r {
        assert r in c.existing;
      } else {
        assert r in policies;
      }
    }
  }

  /** A record that was there and is not deleted is known as before. */
  lemma KeptKnown(workflow: seq<WorkflowStep>, db: Records, envSteps: seq<WorkflowStep>, policies: seq<ApplicationPolicy>,
                  c: Comparison, existing': seq<ApplicationPolicy>, n: string)
    requires Deploying(workflow, db, envSteps, policies, c) && Listed(c, policies, db, existing')
    requires !Blocked(c.stored, c.gen, c.existing, policies, db)
    requires n in Table(c.existing) && !Deleted(c.stored, c.gen, c.existing, n)
    ensures n in Table(existing') && Table(existing')[n].targets == Table(c.existing)[n].targets
  {
    ListedTopologies(workflow, db, envSteps, policies, c, existing');
    RecordAfter(workflow, db, envSteps, policies, c, n);
    hide Afterwards, Blocked, Created, Deleted, Table;
    ListedTable(c.existing, db, n);
    ListedTable(existing', Afterwards(c, policies, db), n);
  }

  /** A created record is known as generated. */
  lemma CreatedKnown(workflow: seq<WorkflowStep>, db: Records, envSteps: seq<WorkflowStep>, policies: seq<ApplicationPolicy>,
                     c: Comparison, existing': seq<ApplicationPolicy>, n: string)
    requires Deploying(workflow, db, envSteps, policies, c) && Listed(c, policies, db, existing')
    requires !Blocked(c.stored, c.gen, c.existing, policies, db)
    requires n in Table(policies) && Created(c.stored, c.gen, policies, n)
    ensures n in Table(existing') && Table(existing')[n].targets == Table(policies)[n].targets
  {
    ListedTopologies(workflow, db, envSteps, policies, c, existing');
    RecordAfter(workflow, db, envSteps, policies, c, n);
    hide Afterwards, Blocked, Created, Deleted, Table;
    var r := Afterwards(c, policies, db)[n];
    TopologyTable(policies, n);
    var q :| q in policies && q.name == n && q.spec.TopologySpec?;
    SameRecord(policies, r, q);
    ListedTable(existing', Afterwards(c, policies, db), n);
  }

  /** A name that was not known and is not created stays unknown. */
  lemma UnknownStays(workflow: seq<WorkflowStep>, db: Records, envSteps: seq<WorkflowStep>, policies: seq<ApplicationPolicy>,
                     c: Comparison, existing': seq<ApplicationPolicy>, n: string)
    requires Deploying(workflow, db, envSteps, policies, c) && Listed(c, policies, db, existing')
    requires !Blocked(c.stored, c.gen, c.existing, policies, db)
    requires n !in Table(c.existing) && !Created(c.stored, c.gen, policies, n)
    ensures n !in Table(existing')
  {
    ListedTopologies(workflow, db, envSteps, policies, c, existing');
    RecordAfter(workflow, db, envSteps, policies, c, n);
    hide Afterwards, Blocked, Created, Deleted, Table;
    ListedTable(c.existing, db, n);
    ListedTable(existing', Afterwards(c, policies, db), n);
  }

  // ---------------------------------------------------------------- reading back

  ghost predicate AgreeOn(names: seq<string>, a: map<string, Info>, b: map<string, Info>) {
    forall n :: n in names ==> (n in a <==> n in b) && (n in a ==> a[n].targets == b[n].targets)
  }

  lemma {:induction false} AgreeingReads(names: seq<string>, a: map<string, Info>, b: map<string, Info>)
    requires AgreeOn(names, a, b)
    ensures NamedTargets(names, a) == NamedTargets(names, b)
  {
    if names != [] {
      assert names[|names| - 1] in names && forall n :: n in names[..|names| - 1] ==> n in names;
      AgreeingReads(names[..|names| - 1], a, b);
    }
  }

  lemma {:induction false} NamesRead(ps: seq<Policy>, table: map<string, Info>)
    requires forall i :: 0 <= i < |ps| ==> ps[i].name in table && table[ps[i].name].targets == ps[i].targets
    ensures NamedTargets(Names(ps), table) == TargetsOf(Deploy, ps)
  {
    if ps != [] {
      var init, p := ps[..|ps| - 1], ps[|ps| - 1];
      NamesRead(init, table);
      var ns := Names(init);
      assert (ns + [p.name])[..|ns|] == ns;
    }
  }

  /** Nothing stored is in the way of what is created, generated steps name generated policies and
      stored steps do not name policies that are only created now, and placed steps bring all they
      hold. */
  ghost predicate Undisturbed(workflow: seq<WorkflowStep>, db: Records, envSteps: seq<WorkflowStep>, policies: seq<ApplicationPolicy>,
                              c: Comparison)
  {
    && !Blocked(c.stored, c.gen, c.existing, policies, db)
    && (forall w, n :: w in envSteps && w.properties.Json? && n in w.properties.policies ==> n in Table(policies))
    && (forall w, n :: w in workflow && w.properties.Json? && n in w.properties.policies ==>
          n in Table(c.existing) || !Created(c.stored, c.gen, policies, n))
    && (forall p :: p in PoliciesOf(PlacedSteps(c.stored, c.gen)) ==> WithinSome(AddedOf(c.stored, c.gen), c.gen, p))
  }

  lemma {:induction false} KnownHolds(names: seq<string>, keys: set<string>, n: string)
    requires n in names && n in keys
    ensures n in Known(names, keys)
  {
    var init, last := names[..|names| - 1], names[|names| - 1];
    assert names == init + [last];
    if n != last {
      KnownHolds(init, keys, n);
    }
  }

  /** A known policy that a step names is one of its policies. */
  lemma NamedPolicyHeld(s: Step, w: WorkflowStep, policies: seq<ApplicationPolicy>, objs: map<string, Policy>, n: string)
    requires Follows(s, w, objs) && Describes(Table(policies), objs) && TopologyOnly(policies)
    requires w.stepType == Deploy && w.properties.Json? && n in w.properties.policies && n in Table(policies)
    ensures objs[n] in s.policies && objs[n].name == n && objs[n].policyType == Topology && n in NamesOf(policies)
    ensures Table(policies)[n].targets == objs[n].targets
  {
    KnownHolds(w.properties.policies, objs.Keys, n);
    var keys := Known(w.properties.policies, objs.Keys);
    ObjectsFrom(keys, objs);
    var i :| 0 <= i < |keys| && keys[i] == n;
    assert s.policies[i] == objs[n];
    var r := TableEntry(policies, n);
  }

  lemma HeldPolicy(steps: seq<Step>, s: Step, p: Policy)
    requires s in steps && p in s.policies
    ensures p in PoliciesOf(steps)
  {
  }

  lemma PlacedFrom(stored: seq<Step>, gen: seq<Step>, s: Step)
    requires s in PlacedSteps(stored, gen)
    ensures s in gen
  {
    BroughtAreWanted(AddedOf(stored, gen), gen);
  }

  /** A placed step is read back as it was generated. */
  lemma PlacedReads(workflow: seq<WorkflowStep>, db: Records, envSteps: seq<WorkflowStep>, policies: seq<ApplicationPolicy>,
                    c: Comparison, existing': seq<ApplicationPolicy>, s: Step)
    requires Deploying(workflow, db, envSteps, policies, c) && Undisturbed(workflow, db, envSteps, policies, c)
    requires Listed(c, policies, db, existing') && s in PlacedSteps(c.stored, c.gen)
    ensures ReadStep(Table(existing'), Lookup(StepMap(envSteps), s.name)) == TargetsOf(s.stepType, s.policies)
  {
    PlacedFrom(c.stored, c.gen, s);
    var w := BuiltFollows(c.gen, envSteps, c.newObjs, s);
    LookupFindsEachIff(envSteps);
    assert s.name == w.name && Lookup(StepMap(envSteps), s.name) == w;
    FollowsReads(s, w, Table(policies), c.newObjs);
    TopologyKinds(workflow, db, envSteps, policies, c);
    if w.stepType == Deploy {
      forall n | n in w.properties.policies
        ensures n in Table(policies) && n in Table(existing') && Table(existing')[n].targets == Table(policies)[n].targets
      {
        NamedPolicyHeld(s, w, policies, c.newObjs, n);
        hide Table, Built, Describes, Follows, PoliciesOf, WithinSome, StepMap, Lookup, ReadStep, TargetsOf, Blocked, Listed, PlacedSteps;
        HeldPolicy(c.gen, s, c.newObjs[n]);
        HeldPolicy(PlacedSteps(c.stored, c.gen), s, c.newObjs[n]);
        CreatedByTopology(c.stored, c.gen, policies, c.newObjs[n]);
        CreatedKnown(workflow, db, envSteps, policies, c, existing', n);
      }
      AgreeingReads(w.properties.policies, Table(existing'), Table(policies));
    }
  }

  lemma CreatedByTopology(stored: seq<Step>, gen: seq<Step>, policies: seq<ApplicationPolicy>, p: Policy)
    requires p in PoliciesOf(gen) && WithinSome(AddedOf(stored, gen), gen, p) && p.name in NamesOf(policies)
    requires forall q :: q in PoliciesOf(stored) + PoliciesOf(gen) ==> q.policyType == Topology
    ensures Created(stored, gen, policies, p.name)
  {
    hide WithinSome, PoliciesOf, AddedOf;
  }

  lemma NotWithinAnywhere(targets: set<string>, stored: seq<Step>, s: Step, p: Policy)
    requires forall x :: x in stored ==> x.stepType != DeployCloudResource
    requires s in stored && p in s.policies && !Within(targets, s.stepType, p)
    ensures !WithinSome(targets, stored, p)
  {
    forall x | x in stored && p in x.policies
      ensures !Within(targets, x.stepType, p)
    {
      CachedAlike(s.stepType, x.stepType, p.targets);
    }
  }

  lemma {:induction false} NoneCounted(targets: set<string>, stepType: StepType, ps: seq<Policy>, p: Policy)
    requires p in ps && CountWithin(targets, stepType, ps) == 0
    ensures !Within(targets, stepType, p)
  {
    var init, last := ps[..|ps| - 1], ps[|ps| - 1];
    assert ps == init + [last];
    if p != last {
      NoneCounted(targets, stepType, init, p);
    }
  }

  lemma NoCloudSteps(steps: seq<Step>, ws: seq<WorkflowStep>, objs: map<string, Policy>)
    requires Built(steps, ws, objs) && DeployOnly(ws)
    ensures forall s :: s in steps ==> s.stepType != DeployCloudResource
  {
    forall s | s in steps
      ensures s.stepType != DeployCloudResource
    {
      var w := BuiltFollows(steps, ws, objs, s);
    }
  }

  /** A kept step is read back as before. */
  lemma KeptReads(workflow: seq<WorkflowStep>, db: Records, envSteps: seq<WorkflowStep>, policies: seq<ApplicationPolicy>,
                  c: Comparison, existing': seq<ApplicationPolicy>, s: Step, w: WorkflowStep)
    requires Deploying(workflow, db, envSteps, policies, c) && Undisturbed(workflow, db, envSteps, policies, c)
    requires Listed(c, policies, db, existing') && s in c.stored && w in workflow && Follows(s, w, c.oldObjs)
    requires OldVerdict(GoneOf(c.stored, c.gen), s, Keep) == Keep
    ensures ReadStep(Table(existing'), w) == TargetsOf(s.stepType, s.policies)
  {
    var gone := GoneOf(c.stored, c.gen);
    FollowsReads(s, w, Table(c.existing), c.oldObjs);
    TopologyKinds(workflow, db, envSteps, policies, c);
    NoCloudSteps(c.stored, workflow, c.oldObjs);
    if w.stepType == Deploy {
      forall n | n in w.properties.policies
        ensures n in Table(c.existing) <==> n in Table(existing')
        ensures n in Table(c.existing) ==> Table(existing')[n].targets == Table(c.existing)[n].targets
      {
        if n in Table(c.existing) {
          NamedPolicyHeld(s, w, c.existing, c.oldObjs, n);
          var p := c.oldObjs[n];
          NoneCounted(gone, s.stepType, s.policies, p);
          NotWithinAnywhere(gone, c.stored, s, p);
          HeldPolicy(c.stored, s, p);
          hide Table, Built, Describes, Follows, PoliciesOf, WithinSome, Within, ReadStep, TargetsOf, Blocked, Listed, Afterwards;
          KeptPolicyStays(workflow, db, envSteps, policies, c, p);
          KeptKnown(workflow, db, envSteps, policies, c, existing', n);
        } else {
          hide Built, Describes, Follows, PoliciesOf, WithinSome, Within, ReadStep, TargetsOf, Blocked, Listed, Afterwards;
          UnknownStays(workflow, db, envSteps, policies, c, existing', n);
        }
      }
      AgreeingReads(w.properties.policies, Table(existing'), Table(c.existing));
    }
  }

  lemma {:induction false} StayingKept(gone: set<string>, stored: seq<Step>, ps: seq<Policy>)
    ensures forall i :: 0 <= i < |Staying(gone, stored, ps)| ==> !WithinSome(gone, stored, Staying(gone, stored, ps)[i])
  {
    hide WithinSome;
    if ps != [] {
      StayingKept(gone, stored, ps[..|ps| - 1]);
    }
  }

  /** A modified step is read back with the policies it stays with. */
  lemma ModifiedReads(workflow: seq<WorkflowStep>, db: Records, envSteps: seq<WorkflowStep>, policies: seq<ApplicationPolicy>,
                      c: Comparison, existing': seq<ApplicationPolicy>, s: Step)
    requires Deploying(workflow, db, envSteps, policies, c) && Undisturbed(workflow, db, envSteps, policies, c)
    requires Listed(c, policies, db, existing') && s in c.stored
    ensures
      var staying := Staying(GoneOf(c.stored, c.gen), c.stored, s.policies);
      NamedTargets(Names(staying), Table(existing')) == TargetsOf(Deploy, staying)
  {
    var gone := GoneOf(c.stored, c.gen);
    var staying := Staying(gone, c.stored, s.policies);
    StayingKept(gone, c.stored, s.policies);
    StayingFrom(gone, c.stored, s.policies);
    TopologyKinds(workflow, db, envSteps, policies, c);
    forall i | 0 <= i < |staying|
      ensures staying[i].name in Table(existing') && Table(existing')[staying[i].name].targets == staying[i].targets
    {
      var p := staying[i];
      HeldPolicy(c.stored, s, p);
      var k, r := PolicyRecord(c.stored, workflow, c.existing, c.oldObjs, p);
      assert k == p.name && k in Table(c.existing) && Table(c.existing)[k].targets == p.targets;
      hide Table, Built, Describes, PoliciesOf, WithinSome, Blocked, Listed, Afterwards, Staying;
      KeptPolicyStays(workflow, db, envSteps, policies, c, p);
      KeptKnown(workflow, db, envSteps, policies, c, existing', p.name);
    }
    NamesRead(staying, Table(existing'));
  }

  lemma ReadOne(table: map<string, Info>, w: WorkflowStep)
    ensures ReadAll(table, [w]) == ReadStep(table, w) && ReadAll(table, []) == []
  {
    assert [w][..0] == [] && ReadAll(table, [w]) == ReadAll(table, [w][..0]) + ReadStep(table, w);
  }

  /** What is written for a stored step is read back as what the comparison left to it. */
  lemma StoredReads(workflow: seq<WorkflowStep>, db: Records, envSteps: seq<WorkflowStep>, policies: seq<ApplicationPolicy>,
                    c: Comparison, existing': seq<ApplicationPolicy>, s: Step)
    requires Deploying(workflow, db, envSteps, policies, c) && Undisturbed(workflow, db, envSteps, policies, c)
    requires Listed(c, policies, db, existing') && s in c.stored
    ensures
      var gone := GoneOf(c.stored, c.gen);
      ReadAll(Table(existing'), Rewritten(gone, c.stored, s, Lookup(StepMap(workflow), s.name))) ==
      TargetsOf(s.stepType, Left(gone, c.stored, s))
  {
    var gone, table := GoneOf(c.stored, c.gen), Table(existing');
    var w := BuiltFollows(c.stored, workflow, c.oldObjs, s);
    FoundAgain(workflow, c.oldObjs, s, w);
    WrittenCases(gone, c.stored, s, w);
    hide Deploying, Compares, Undisturbed, Listed, Table, StepMap, Lookup, Follows, GoneOf, OldVerdict;
    hide Rewritten, Left, WithPolicies, TargetsOf, ReadAll, ReadStep, Staying, Names, NamedTargets;
    NoTargets(s.stepType);
    NothingRead(table);
    if OldVerdict(gone, s, Keep) == Keep {
      KeptReads(workflow, db, envSteps, policies, c, existing', s, w);
      ReadOne(table, w);
    } else if OldVerdict(gone, s, Keep) == Modify {
      ModifiedIsDeploy(gone, s, w, c.oldObjs);
      ModifiedReads(workflow, db, envSteps, policies, c, existing', s);
      ReadRewritten(table, w, Names(Staying(gone, c.stored, s.policies)));
    }
  }

  lemma WrittenCases(gone: set<string>, stored: seq<Step>, s: Step, w: WorkflowStep)
    ensures
      var written, left := Rewritten(gone, stored, s, w), Left(gone, stored, s);
      if OldVerdict(gone, s, Keep) == Keep then written == [w] && left == s.policies
      else if OldVerdict(gone, s, Keep) == Modify then
        && left == Staying(gone, stored, s.policies)
        && (s.stepType == Deploy ==> written == [WithPolicies(w, Names(left))])
      else written == [] && left == []
  {
    hide CountWithin, Staying, WithPolicies, Names;
  }

  lemma FoundAgain(workflow: seq<WorkflowStep>, objs: map<string, Policy>, s: Step, w: WorkflowStep)
    requires OneStepPerName(workflow) && w in workflow && Follows(s, w, objs)
    ensures Lookup(StepMap(workflow), s.name) == w && s.stepType == w.stepType
  {
    LookupFindsEachIff(workflow);
  }

  lemma NothingRead(table: map<string, Info>)
    ensures ReadAll(table, []) == []
  {
  }

  lemma ReadRewritten(table: map<string, Info>, w: WorkflowStep, names: seq<string>)
    requires w.stepType == Deploy && w.properties.Json?
    ensures ReadAll(table, [WithPolicies(w, names)]) == NamedTargets(names, table)
  {
    hide NamedTargets, ReadAll;
    ReadOne(table, WithPolicies(w, names));
  }

  lemma {:induction false} RetainedReads(workflow: seq<WorkflowStep>, db: Records, envSteps: seq<WorkflowStep>, policies: seq<ApplicationPolicy>,
                                         c: Comparison, existing': seq<ApplicationPolicy>, steps: seq<Step>)
    requires Deploying(workflow, db, envSteps, policies, c) && Undisturbed(workflow, db, envSteps, policies, c)
    requires Listed(c, policies, db, existing') && forall s :: s in steps ==> s in c.stored
    ensures
      var gone := GoneOf(c.stored, c.gen);
      ReadAll(Table(existing'), Retained(gone, c.stored, steps, StepMap(workflow))) == StoredDeploys(gone, c.stored, steps)
  {
    hide Deploying, Undisturbed, Listed, Table, Rewritten, StepMap, Lookup, TargetsOf, Left, ReadStep;
    if steps != [] {
      var init, s := steps[..|steps| - 1], steps[|steps| - 1];
      var gone, m := GoneOf(c.stored, c.gen), StepMap(workflow);
      RetainedReads(workflow, db, envSteps, policies, c, existing', init);
      StoredReads(workflow, db, envSteps, policies, c, existing', s);
      ReadConcat(Table(existing'), Retained(gone, c.stored, init, m), Rewritten(gone, c.stored, s, Lookup(m, s.name)));
    }
  }

  lemma {:induction false} BroughtReads(workflow: seq<WorkflowStep>, db: Records, envSteps: seq<WorkflowStep>, policies: seq<ApplicationPolicy>,
                                        c: Comparison, existing': seq<ApplicationPolicy>, steps: seq<Step>)
    requires Deploying(workflow, db, envSteps, policies, c) && Undisturbed(workflow, db, envSteps, policies, c)
    requires Listed(c, policies, db, existing') && forall s :: s in steps ==> s in PlacedSteps(c.stored, c.gen)
    ensures ReadAll(Table(existing'), Brought(steps, StepMap(envSteps))) == AllTargets(steps)
  {
    hide Deploying, Undisturbed, Listed, Table, StepMap, Lookup, TargetsOf, ReadStep, PlacedSteps;
    if steps != [] {
      var init, s := steps[..|steps| - 1], steps[|steps| - 1];
      var m := StepMap(envSteps);
      BroughtReads(workflow, db, envSteps, policies, c, existing', init);
      PlacedReads(workflow, db, envSteps, policies, c, existing', s);
      ReadConcat(Table(existing'), Brought(init, m), [Lookup(m, s.name)]);
      ReadOne(Table(existing'), Lookup(m, s.name));
    }
  }

  lemma {:induction false} BroughtDeployOnly(steps: seq<Step>, ws: seq<WorkflowStep>)
    requires DeployOnly(ws)
    ensures DeployOnly(Brought(steps, StepMap(ws)))
  {
    if steps != [] {
      BroughtDeployOnly(steps[..|steps| - 1], ws);
      LookupDeployOnly(ws, steps[|steps| - 1].name);
    }
  }

  lemma {:induction false} LookupDeployOnly(ws: seq<WorkflowStep>, name: string)
    requires DeployOnly(ws)
    ensures Lookup(StepMap(ws), name).stepType == Deploy || Lookup(StepMap(ws), name).stepType.Plain?
  {
    if ws != [] {
      assert ws[|ws| - 1] in ws;
      LookupDeployOnly(ws[..|ws| - 1], name);
    }
  }

  lemma {:induction false} RetainedDeployOnly(gone: set<string>, stored: seq<Step>, steps: seq<Step>, ws: seq<WorkflowStep>)
    requires DeployOnly(ws)
    ensures DeployOnly(Retained(gone, stored, steps, StepMap(ws)))
  {
    if steps != [] {
      RetainedDeployOnly(gone, stored, steps[..|steps| - 1], ws);
      LookupDeployOnly(ws, steps[|steps| - 1].name);
    }
  }

  /** Steps built from the written workflow and the stored policies deploy to the targets the
      comparison left and brought. */
  lemma RereadDeploys(workflow: seq<WorkflowStep>, db: Records, envSteps: seq<WorkflowStep>, policies: seq<ApplicationPolicy>,
                      workflow': seq<WorkflowStep>, db': Records, c: Comparison,
                      existing': seq<ApplicationPolicy>, steps': seq<Step>, objs': map<string, Policy>)
    requires Reconciled(workflow, db, envSteps, policies, workflow', db', c) && WellKeyed(db)
    requires Deploying(workflow, db, envSteps, policies, c) && Undisturbed(workflow, db, envSteps, policies, c)
    requires Lists(existing', db') && Built(steps', workflow', objs') && Describes(Table(existing'), objs')
    ensures multiset(AllTargets(steps')) == Deployed(c.stored, c.gen)
  {
    var gone, added, table := GoneOf(c.stored, c.gen), AddedOf(c.stored, c.gen), Table(existing');
    var front, back := Front(added, c.gen), Back(added, c.gen);
    BroughtDeployOnly(front, envSteps);
    RetainedDeployOnly(gone, c.stored, c.stored, workflow);
    BroughtDeployOnly(back, envSteps);
    BuiltReads(steps', workflow', table, objs');
    assert Listed(c, policies, db, existing');
    hide Deploying, Undisturbed, Listed, Table, Describes, Built, Compares, Front, Back, AllTargets;
    hide ReadAll, Brought, Retained, StoredDeploys, StepMap;
    BroughtReads(workflow, db, envSteps, policies, c, existing', front);
    RetainedReads(workflow, db, envSteps, policies, c, existing', c.stored);
    BroughtReads(workflow, db, envSteps, policies, c, existing', back);
    var a, b, d := Brought(front, StepMap(envSteps)), Retained(gone, c.stored, c.stored, StepMap(workflow)), Brought(back, StepMap(envSteps));
    ReadConcat(table, a + b, d);
    ReadConcat(table, a, b);
    assert workflow' == a + b + d;
    assert AllTargets(steps') == AllTargets(front) + StoredDeploys(gone, c.stored, c.stored) + AllTargets(back);
  }

  lemma {:induction false} DeletedIsMarked(ms: seq<Mark>, name: string)
    requires name in AllTagged(ms).deleted
    ensures Marked(ms, name, Delete)
  {
    var init, m := ms[..|ms| - 1], ms[|ms| - 1];
    assert ms == init + [m];
    MarkedLast(init, m, name, Delete);
    if name in AllTagged(init).deleted {
      DeletedIsMarked(init, name);
    }
  }

  /** Where everything is kept, no record changes. */
  lemma KeptRecordsStay(stored: seq<Step>, gen: seq<Step>, existing: seq<ApplicationPolicy>, policies: seq<ApplicationPolicy>, db: Records)
    requires Separate(stored, gen) && AllKept(GoneOf(stored, gen), AddedOf(stored, gen), stored, gen)
    ensures RecordsAfter(stored, gen, existing, policies, db) == db
  {
    var ms := Decided(stored, gen);
    forall n
      ensures n !in AllTagged(ms).deleted && n !in AllTagged(ms).created && n !in AllTagged(ms).updated
    {
      hide WithinSome, Marked, AllTagged, Decided, PoliciesOf, GoneOf, AddedOf, PlacedSteps, OldVerdict, Assembled;
      DecidedIff(stored, gen, n);
      TagsOfName(ms, n);
      if n in AllTagged(ms).deleted {
        DeletedIsMarked(ms, n);
      }
    }
    assert AllTagged(ms).deleted == {} && AllTagged(ms).created - AllTagged(ms).updated == {} && AllTagged(ms).updated == {};
    NonePicked(policies);
    NonePicked(existing);
  }

  /** After an update that covers the generated targets, a second one keeps every step and policy,
      places nothing and changes no record, exactly when every policy has a target. */
  lemma SecondUpdateKeepsAllIff(workflow: seq<WorkflowStep>, db: Records, envSteps: seq<WorkflowStep>, policies: seq<ApplicationPolicy>,
                                workflow': seq<WorkflowStep>, db': Records, c: Comparison, c': Comparison)
    requires Reconciled(workflow, db, envSteps, policies, workflow', db', c) && WellKeyed(db)
    requires Deploying(workflow, db, envSteps, policies, c) && Undisturbed(workflow, db, envSteps, policies, c)
    requires Clean(GoneOf(c.stored, c.gen), c.stored) && forall s :: s in c.gen ==> PlacedWhole(AddedOf(c.stored, c.gen), s)
    requires Distinct(AllTargets(c.stored)) && Distinct(AllTargets(c.gen))
    requires Compares(workflow', db', envSteps, policies, c')
    ensures AllKept(GoneOf(c'.stored, c'.gen), AddedOf(c'.stored, c'.gen), c'.stored, c'.gen) <==>
            EveryPolicyHasTarget(c'.stored) && EveryPolicyHasTarget(c'.gen)
    ensures EveryPolicyHasTarget(c'.stored) && EveryPolicyHasTarget(c'.gen) ==>
              RecordsAfter(c'.stored, c'.gen, c'.existing, policies, db') == db'
  {
    RereadDeploys(workflow, db, envSteps, policies, workflow', db', c, c'.existing, c'.stored, c'.oldObjs);
    DistinctTargetsCovered(c.stored, c.gen);
    BuiltReads(c.gen, envSteps, Table(policies), c.newObjs);
    BuiltReads(c'.gen, envSteps, Table(policies), c'.newObjs);
    SameItems(AllTargets(c'.stored), AllTargets(c'.gen));
    ComparingAgainKeepsAll(c'.stored, c'.gen);
    if EveryPolicyHasTarget(c'.stored) && EveryPolicyHasTarget(c'.gen) {
      KeptRecordsStay(c'.stored, c'.gen, c'.existing, policies, db');
    }
  }

  lemma SameItems(a: seq<string>, b: seq<string>)
    requires multiset(a) == multiset(b)
    ensures Items(a) == Items(b)
  {
    assert forall t :: t in a <==> t in multiset(a);
    assert forall t :: t in b <==> t in multiset(b);
  }

  // ---------------------------------------------------------------- what a second update writes

  ghost predicate Readable(ws: seq<WorkflowStep>) {
    forall w :: w in ws ==> ReadableStep(w)
  }

  predicate ReadableStep(w: WorkflowStep) {
    w.stepType.Plain? || (w.stepType == Deploy && w.properties.Json?)
  }

  lemma ReadableTracked(ws: seq<WorkflowStep>, keys: set<string>)
    requires Readable(ws)
    ensures AllTracked(ws, keys)
  {
  }

  lemma FoundReadable(steps: seq<Step>, ws: seq<WorkflowStep>, objs: map<string, Policy>, s: Step)
    requires Built(steps, ws, objs) && DeployOnly(ws) && OneStepPerName(ws) && s in steps
    ensures ReadableStep(Lookup(StepMap(ws), s.name))
  {
    var w := BuiltFollows(steps, ws, objs, s);
    FoundAgain(ws, objs, s, w);
  }

  lemma {:induction false} BroughtReadable(gen: seq<Step>, steps: seq<Step>, ws: seq<WorkflowStep>, objs: map<string, Policy>)
    requires Built(gen, ws, objs) && DeployOnly(ws) && OneStepPerName(ws) && forall s :: s in steps ==> s in gen
    ensures Readable(Brought(steps, StepMap(ws)))
  {
    hide Built, DeployOnly, OneStepPerName, StepMap, Lookup, ReadableStep;
    if steps != [] {
      BroughtReadable(gen, steps[..|steps| - 1], ws, objs);
      FoundReadable(gen, ws, objs, steps[|steps| - 1]);
    }
  }

  lemma {:induction false} RetainedReadable(gone: set<string>, stored: seq<Step>, steps: seq<Step>, ws: seq<WorkflowStep>, objs: map<string, Policy>)
    requires Built(stored, ws, objs) && DeployOnly(ws) && OneStepPerName(ws) && forall s :: s in steps ==> s in stored
    ensures Readable(Retained(gone, stored, steps, StepMap(ws)))
  {
    hide Built, DeployOnly, OneStepPerName, StepMap, Lookup, OldVerdict, Staying, Names;
    if steps != [] {
      RetainedReadable(gone, stored, steps[..|steps| - 1], ws, objs);
      FoundReadable(stored, ws, objs, steps[|steps| - 1]);
    }
  }

  lemma WrittenReadable(workflow: seq<WorkflowStep>, db: Records, envSteps: seq<WorkflowStep>, policies: seq<ApplicationPolicy>, c: Comparison)
    requires Deploying(workflow, db, envSteps, policies, c)
    ensures Readable(NewWorkflow(c.stored, c.gen, workflow, envSteps))
  {
    var gone, added := GoneOf(c.stored, c.gen), AddedOf(c.stored, c.gen);
    var front, back := Front(added, c.gen), Back(added, c.gen);
    BroughtAreWanted(added, c.gen);
    assert forall s :: s in front ==> s in front + back;
    assert forall s :: s in back ==> s in front + back;
    hide Compares, Front, Back, Brought, Retained, StepMap, ReadableStep, DeployOnly, OneStepPerName;
    DeployingBuilt(workflow, db, envSteps, policies, c);
    BroughtReadable(c.gen, front, envSteps, c.newObjs);
    BroughtReadable(c.gen, back, envSteps, c.newObjs);
    RetainedReadable(gone, c.stored, c.stored, workflow, c.oldObjs);
  }

  lemma DeployingBuilt(workflow: seq<WorkflowStep>, db: Records, envSteps: seq<WorkflowStep>, policies: seq<ApplicationPolicy>, c: Comparison)
    requires Deploying(workflow, db, envSteps, policies, c)
    ensures Built(c.stored, workflow, c.oldObjs) && Built(c.gen, envSteps, c.newObjs)
  {
  }

  /** After an update that covers the generated targets, a second one writes the same workflow exactly
      when the first placed no step with the name of an unlike stored step that it wrote again. */
  lemma SecondUpdateWritesSameIff(workflow: seq<WorkflowStep>, db: Records, envSteps: seq<WorkflowStep>, policies: seq<ApplicationPolicy>,
                                  workflow': seq<WorkflowStep>, db': Records, c: Comparison, c': Comparison)
    requires Reconciled(workflow, db, envSteps, policies, workflow', db', c) && WellKeyed(db)
    requires Deploying(workflow, db, envSteps, policies, c) && Undisturbed(workflow, db, envSteps, policies, c)
    requires Clean(GoneOf(c.stored, c.gen), c.stored) && forall s :: s in c.gen ==> PlacedWhole(AddedOf(c.stored, c.gen), s)
    requires Distinct(AllTargets(c.stored)) && Distinct(AllTargets(c.gen))
    requires Compares(workflow', db', envSteps, policies, c') && EveryPolicyHasTarget(c'.stored) && EveryPolicyHasTarget(c'.gen)
    ensures NewWorkflow(c'.stored, c'.gen, workflow', envSteps) == workflow' <==>
            Alike(WrittenPlaced(c.stored, c.gen, envSteps), WrittenStored(c.stored, c.gen, workflow))
    ensures OneStepPerName(workflow') <==>
            Alike(WrittenPlaced(c.stored, c.gen, envSteps), WrittenStored(c.stored, c.gen, workflow))
  {
    SecondUpdateKeepsAllIff(workflow, db, envSteps, policies, workflow', db', c, c');
    WrittenReadable(workflow, db, envSteps, policies, c);
    ReadableTracked(workflow', c'.oldObjs.Keys);
    DeployingBuilt(workflow, db, envSteps, policies, c);
    StaysOnePerNameIff(c.stored, c.gen, workflow, envSteps, c.oldObjs, c.newObjs);
    hide Deploying, Undisturbed, NewWorkflow, OneStepPerName, AllTracked, Readable, Built, Describes, AllKept, Alike, EveryPolicyHasTarget;
    assert Built(c'.stored, workflow', c'.oldObjs);
    KeptWrittenBackIff(c'.stored, c'.gen, workflow', envSteps, c'.oldObjs);
  }
}
