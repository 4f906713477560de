/** What the workflow deploys to after the comparison: target by target, for every stored
    and generated list of steps. */
module WorkflowCoverage {
  import opened Slices
  import opened WorkflowModel
  import opened WorkflowComparison

  // ---------------------------------------------------------------- deployed targets

  /** The policies of a modified step that stay, given which policy objects are deleted. */
  ghost function Staying(gone: set<string>, stored: seq<Step>, ps: seq<Policy>): seq<Policy> {
    if ps == [] then []
    else
      Staying(gone, stored, ps[..|ps| - 1])
      + if WithinSome(gone, stored, ps[|ps| - 1]) then [] else [ps[|ps| - 1]]
  }

  /** What a stored step still deploys with, after the comparison. */
  ghost function Left(gone: set<string>, stored: seq<Step>, s: Step): seq<Policy> {
    match OldVerdict(gone, s, Keep)
    case Delete => []
    case Modify => Staying(gone, stored, s.policies)
    case _ => s.policies
  }

  ghost function StoredDeploys(gone: set<string>, stored: seq<Step>, steps: seq<Step>): seq<string> {
    if steps == [] then []
    else
      var s := steps[|steps| - 1];
      StoredDeploys(gone, stored, steps[..|steps| - 1]) + TargetsOf(s.stepType, Left(gone, stored, s))
  }

  /** Every target the reconciled workflow deploys to, with repetitions. */
  ghost function Deployed(stored: seq<Step>, gen: seq<Step>): multiset<string> {
    var gone, added := Gone(AllTargets(stored), AllTargets(gen)), Added(AllTargets(stored), AllTargets(gen));
    multiset(AllTargets(Front(added, gen)))
    + multiset(StoredDeploys(gone, stored, stored))
    + multiset(AllTargets(Back(added, gen)))
  }

  // ---------------------------------------------------------------- stored steps

  /** The policies a step of this type does not itself drop. */
  ghost function Without(gone: set<string>, stepType: StepType, ps: seq<Policy>): seq<Policy> {
    if ps == [] then []
    else
      Without(gone, stepType, ps[..|ps| - 1])
      + if Within(gone, stepType, ps[|ps| - 1]) then [] else [ps[|ps| - 1]]
  }

  ghost predicate Untouched(targets: set<string>, stepType: StepType, p: Policy) {
    forall t :: t in CacheTargets(stepType, p.targets) ==> t !in targets
  }

  /** What a modified step loses, it drops itself: none of its policies is dropped only by another
      step that shares the policy under another kind of target. */
  ghost predicate LosesOwn(gone: set<string>, stored: seq<Step>, s: Step) {
    OldVerdict(gone, s, Keep) == Modify ==>
      forall p :: p in s.policies && WithinSome(gone, stored, p) ==> Within(gone, s.stepType, p)
  }

  /** Every policy is gone as a whole or not at all, and steps lose only what they drop. */
  ghost predicate Clean(gone: set<string>, stored: seq<Step>) {
    forall s :: s in stored ==> CleanStep(gone, stored, s)
  }

  ghost predicate CleanStep(gone: set<string>, stored: seq<Step>, s: Step) {
    && LosesOwn(gone, stored, s)
    && forall p :: p in s.policies ==> Within(gone, s.stepType, p) || Untouched(gone, s.stepType, p)
  }

  lemma {:induction false} StayingIsWithoutIff(gone: set<string>, stored: seq<Step>, s: Step, ps: seq<Policy>)
    requires s in stored && forall p :: p in ps ==> p in s.policies
    ensures |Staying(gone, stored, ps)| <= |Without(gone, s.stepType, ps)|
    ensures Staying(gone, stored, ps) == Without(gone, s.stepType, ps) <==>
            forall p :: p in ps && WithinSome(gone, stored, p) ==> Within(gone, s.stepType, p)
  {
    if ps != [] {
      var init, p := ps[..|ps| - 1], ps[|ps| - 1];
      assert ps == init + [p];
      StayingIsWithoutIff(gone, stored, s, init);
      var a, b := Staying(gone, stored, init), Without(gone, s.stepType, init);
      assert Within(gone, s.stepType, p) ==> WithinSome(gone, stored, p);
      if !WithinSome(gone, stored, p) {
        SameButLast(a, b, p);
        assert Staying(gone, stored, ps) == a + [p] && Without(gone, s.stepType, ps) == b + [p];
      } else {
        assert a + [] == a && b + [] == b;
      }
    }
  }

  lemma SameButLast<T>(a: seq<T>, b: seq<T>, x: T)
    ensures a + [x] == b + [x] <==> a == b
  {
    if a + [x] == b + [x] {
      assert |a| == |b|;
      assert a == (a + [x])[..|a|] == b;
    }
  }

  lemma {:induction false} WithoutLength(gone: set<string>, stepType: StepType, ps: seq<Policy>)
    ensures |Without(gone, stepType, ps)| + CountWithin(gone, stepType, ps) == |ps|
  {
    hide Within;
    if ps != [] {
      WithoutLength(gone, stepType, ps[..|ps| - 1]);
    }
  }

  lemma {:induction false} WithoutNone(gone: set<string>, stepType: StepType, ps: seq<Policy>)
    requires CountWithin(gone, stepType, ps) == 0
    ensures Without(gone, stepType, ps) == ps
  {
    hide Within;
    if ps != [] {
      WithoutNone(gone, stepType, ps[..|ps| - 1]);
      assert ps == ps[..|ps| - 1] + [ps[|ps| - 1]];
    }
  }

  lemma WithoutCounts(gone: set<string>, stepType: StepType, ps: seq<Policy>)
    ensures CountWithin(gone, stepType, ps) == |ps| <==> Without(gone, stepType, ps) == []
    ensures CountWithin(gone, stepType, ps) == 0 ==> Without(gone, stepType, ps) == ps
    ensures |Without(gone, stepType, ps)| + CountWithin(gone, stepType, ps) == |ps|
  {
    hide Without, CountWithin;
    WithoutLength(gone, stepType, ps);
    if CountWithin(gone, stepType, ps) == 0 {
      WithoutNone(gone, stepType, ps);
    }
  }

  /** Deleted, modified or kept, a stored step goes on with exactly the policies not dropped there,
      exactly when it loses only what it drops. */
  lemma LeftIsWithoutIff(gone: set<string>, stored: seq<Step>, s: Step)
    requires s in stored
    ensures Left(gone, stored, s) == Without(gone, s.stepType, s.policies) <==> LosesOwn(gone, stored, s)
  {
    StayingIsWithoutIff(gone, stored, s, s.policies);
    WithoutCounts(gone, s.stepType, s.policies);
  }

  lemma TargetsLast(stepType: StepType, ps: seq<Policy>, p: Policy)
    ensures multiset(TargetsOf(stepType, ps + [p])) ==
            multiset(TargetsOf(stepType, ps)) + multiset(CacheTargets(stepType, p.targets))
  {
    assert (ps + [p])[..|ps|] == ps;
  }

  lemma {:induction false} WithoutTargets(gone: set<string>, stepType: StepType, ps: seq<Policy>, t: string)
    requires forall p :: p in ps ==> Within(gone, stepType, p) || Untouched(gone, stepType, p)
    ensures multiset(TargetsOf(stepType, Without(gone, stepType, ps)))[t] ==
            if t in gone then 0 else multiset(TargetsOf(stepType, ps))[t]
  {
    hide CacheTargets, TargetsOf;
    if ps != [] {
      var init, p := ps[..|ps| - 1], ps[|ps| - 1];
      assert ps == init + [p];
      WithoutTargets(gone, stepType, init, t);
      TargetsLast(stepType, init, p);
      var c := CacheTargets(stepType, p.targets);
      assert t in multiset(c) <==> t in c;
      var w := Without(gone, stepType, init);
      TargetsLast(stepType, w, p);
      if Within(gone, stepType, p) {
        assert Without(gone, stepType, ps) == w + [] == w;
      } else {
        assert Untouched(gone, stepType, p);
      }
    } else {
      assert TargetsOf(stepType, []) == [] by {
        NoTargets(stepType);
      }
    }
  }

  lemma NoTargets(stepType: StepType)
    ensures TargetsOf(stepType, []) == []
  {
  }

  lemma {:induction false} TargetsHeld(stepType: StepType, ps: seq<Policy>, p: Policy, t: string)
    requires p in ps && t in CacheTargets(stepType, p.targets)
    ensures multiset(TargetsOf(stepType, ps))[t] > 0
  {
    var init, last := ps[..|ps| - 1], ps[|ps| - 1];
    assert ps == init + [last];
    TargetsLast(stepType, init, last);
    if p == last {
      assert t in multiset(CacheTargets(stepType, p.targets));
    } else {
      TargetsHeld(stepType, init, p, t);
    }
  }

  lemma {:induction false} StayingTargets(gone: set<string>, stored: seq<Step>, stepType: StepType, ps: seq<Policy>, t: string)
    ensures multiset(TargetsOf(stepType, Staying(gone, stored, ps)))[t] <= multiset(TargetsOf(stepType, ps))[t]
    ensures (exists p :: p in ps && WithinSome(gone, stored, p) && t in CacheTargets(stepType, p.targets)) ==>
              multiset(TargetsOf(stepType, Staying(gone, stored, ps)))[t] < multiset(TargetsOf(stepType, ps))[t]
  {
    hide CacheTargets, TargetsOf, WithinSome;
    if ps != [] {
      var init, p := ps[..|ps| - 1], ps[|ps| - 1];
      assert ps == init + [p];
      StayingTargets(gone, stored, stepType, init, t);
      TargetsLast(stepType, init, p);
      TargetsLast(stepType, Staying(gone, stored, init), p);
      assert t in multiset(CacheTargets(stepType, p.targets)) <==> t in CacheTargets(stepType, p.targets);
      if WithinSome(gone, stored, p) {
        assert Staying(gone, stored, ps) == Staying(gone, stored, init) + [] == Staying(gone, stored, init);
      }
    }
  }

  lemma {:induction false} StayingHolds(gone: set<string>, stored: seq<Step>, ps: seq<Policy>, p: Policy)
    requires p in ps && !WithinSome(gone, stored, p)
    ensures p in Staying(gone, stored, ps)
  {
    var init, last := ps[..|ps| - 1], ps[|ps| - 1];
    assert ps == init + [last];
    if p != last {
      StayingHolds(gone, stored, init, p);
    }
  }

  /** How often a target is held by a step, before and after. */
  ghost function Had(s: Step, t: string): nat {
    multiset(TargetsOf(s.stepType, s.policies))[t]
  }

  ghost function Has(gone: set<string>, stored: seq<Step>, s: Step, t: string): nat {
    multiset(TargetsOf(s.stepType, Left(gone, stored, s)))[t]
  }

  lemma HasAtMost(gone: set<string>, stored: seq<Step>, s: Step, t: string)
    ensures Has(gone, stored, s, t) <= Had(s, t)
  {
    NoTargets(s.stepType);
    hide TargetsOf, Staying, CountWithin;
    StayingTargets(gone, stored, s.stepType, s.policies, t);
  }

  lemma CleanStepKeeps(gone: set<string>, stored: seq<Step>, s: Step, t: string)
    requires s in stored && CleanStep(gone, stored, s)
    ensures Has(gone, stored, s, t) == if t in gone then 0 else Had(s, t)
  {
    LeftIsWithoutIff(gone, stored, s);
    WithoutTargets(gone, s.stepType, s.policies, t);
  }

  lemma Touched(targets: set<string>, stepType: StepType, p: Policy) returns (t: string)
    requires !Untouched(targets, stepType, p)
    ensures t in CacheTargets(stepType, p.targets) && t in targets
  {
    t :| t in CacheTargets(stepType, p.targets) && t in targets;
  }

  /** A step that is not clean keeps a target that is gone, or loses one that is not. */
  lemma UncleanStep(gone: set<string>, stored: seq<Step>, s: Step) returns (t: string)
    requires s in stored && !CleanStep(gone, stored, s)
    ensures if t in gone then Has(gone, stored, s, t) > 0 else Has(gone, stored, s, t) < Had(s, t)
  {
    var p :| p in s.policies && !Within(gone, s.stepType, p) &&
      (!Untouched(gone, s.stepType, p) || (WithinSome(gone, stored, p) && OldVerdict(gone, s, Keep) == Modify));
    WithoutCounts(gone, s.stepType, s.policies);
    NotWithinCounted(gone, s.stepType, s.policies, p);
    if WithinSome(gone, stored, p) && OldVerdict(gone, s, Keep) == Modify {
      t :| t in CacheTargets(s.stepType, p.targets) && t !in gone;
      StayingTargets(gone, stored, s.stepType, s.policies, t);
    } else {
      assert !Untouched(gone, s.stepType, p);
      t := Touched(gone, s.stepType, p);
      if OldVerdict(gone, s, Keep) == Modify {
        StayingHolds(gone, stored, s.policies, p);
      }
      TargetsHeld(s.stepType, Left(gone, stored, s), p, t);
    }
  }

  lemma {:induction false} NotWithinCounted(gone: set<string>, stepType: StepType, ps: seq<Policy>, p: Policy)
    requires p in ps && !Within(gone, stepType, p)
    ensures CountWithin(gone, stepType, ps) < |ps|
  {
    var init, last := ps[..|ps| - 1], ps[|ps| - 1];
    assert ps == init + [last];
    if p != last {
      NotWithinCounted(gone, stepType, init, p);
    }
  }

  lemma StoredLast(gone: set<string>, stored: seq<Step>, steps: seq<Step>, s: Step, t: string)
    ensures multiset(StoredDeploys(gone, stored, steps + [s]))[t] == multiset(StoredDeploys(gone, stored, steps))[t] + Has(gone, stored, s, t)
    ensures multiset(AllTargets(steps + [s]))[t] == multiset(AllTargets(steps))[t] + Had(s, t)
  {
    assert (steps + [s])[..|steps|] == steps;
  }

  /** What the steps keep of a target and what they lose of it are at least what one of them does. */
  lemma {:induction false} StoredBounds(gone: set<string>, stored: seq<Step>, steps: seq<Step>, s: Step, t: string)
    requires s in steps
    ensures multiset(StoredDeploys(gone, stored, steps))[t] >= Has(gone, stored, s, t)
    ensures multiset(AllTargets(steps))[t] - multiset(StoredDeploys(gone, stored, steps))[t] >= Had(s, t) - Has(gone, stored, s, t)
  {
    var init, last := steps[..|steps| - 1], steps[|steps| - 1];
    assert steps == init + [last];
    StoredLast(gone, stored, init, last, t);
    HasAtMost(gone, stored, last, t);
    StoredAtMost(gone, stored, init, t);
    if s != last {
      StoredBounds(gone, stored, init, s, t);
    }
  }

  lemma {:induction false} StoredAtMost(gone: set<string>, stored: seq<Step>, steps: seq<Step>, t: string)
    ensures multiset(StoredDeploys(gone, stored, steps))[t] <= multiset(AllTargets(steps))[t]
  {
    if steps != [] {
      var init, last := steps[..|steps| - 1], steps[|steps| - 1];
      assert steps == init + [last];
      StoredLast(gone, stored, init, last, t);
      HasAtMost(gone, stored, last, t);
      StoredAtMost(gone, stored, init, t);
    }
  }

  lemma {:induction false} StoredDeploysCount(gone: set<string>, stored: seq<Step>, steps: seq<Step>, t: string)
    requires Clean(gone, stored) && forall s :: s in steps ==> s in stored
    ensures multiset(StoredDeploys(gone, stored, steps))[t] ==
            if t in gone then 0 else multiset(AllTargets(steps))[t]
  {
    if steps != [] {
      var init, s := steps[..|steps| - 1], steps[|steps| - 1];
      assert steps == init + [s];
      StoredDeploysCount(gone, stored, init, t);
      StoredLast(gone, stored, init, s, t);
      CleanStepKeeps(gone, stored, s, t);
    }
  }

  /** The stored steps give up exactly the targets that are gone, whatever policies and steps are
      stored, exactly when every policy is gone as a whole or not at all and steps lose only what
      they drop. */
  lemma StoredGiveUpGoneIff(gone: set<string>, stored: seq<Step>)
    ensures (forall t :: multiset(StoredDeploys(gone, stored, stored))[t] ==
                         if t in gone then 0 else multiset(AllTargets(stored))[t]) <==>
            Clean(gone, stored)
  {
    if Clean(gone, stored) {
      forall t
        ensures multiset(StoredDeploys(gone, stored, stored))[t] == if t in gone then 0 else multiset(AllTargets(stored))[t]
      {
        StoredDeploysCount(gone, stored, stored, t);
      }
    } else {
      var s :| s in stored && !CleanStep(gone, stored, s);
      var t := UncleanStep(gone, stored, s);
      StoredBounds(gone, stored, stored, s, t);
    }
  }

  // ---------------------------------------------------------------- generated steps

  lemma {:induction false} AllTargetsConcat(a: seq<Step>, b: seq<Step>)
    ensures AllTargets(a + b) == AllTargets(a) + AllTargets(b)
  {
    if b == [] {
      assert a + b == a;
    } else {
      assert (a + b)[..|a + b| - 1] == a + b[..|b| - 1];
      AllTargetsConcat(a, b[..|b| - 1]);
    }
  }

  ghost function Times(n: nat, k: nat): nat {
    if n == 0 then 0 else Times(n - 1, k) + k
  }

  lemma {:induction false} TimesNone(n: nat)
    ensures Times(n, 0) == 0
  {
    if n > 0 {
      TimesNone(n - 1);
    }
  }

  lemma {:induction false} CopiesTargets(s: Step, n: nat, t: string)
    ensures multiset(AllTargets(Copies(s, n)))[t] == Times(n, Had(s, t))
  {
    hide TargetsOf;
    if n > 0 {
      CopiesTargets(s, n - 1, t);
      CopiesEndAlike(s, n - 1);
      var c := Copies(s, n - 1);
      assert (c + [s])[..|c|] == c;
      assert AllTargets(c + [s]) == AllTargets(c) + TargetsOf(s.stepType, s.policies);
    }
  }

  /** How often the placed generated steps hold a target: a step is placed once for each of its
      policies that is brought. */
  ghost function Placements(added: set<string>, gen: seq<Step>, t: string): nat {
    if gen == [] then 0
    else
      var s := gen[|gen| - 1];
      Placements(added, gen[..|gen| - 1], t) + Times(CountWithin(added, s.stepType, s.policies), Had(s, t))
  }

  lemma FrontLast(added: set<string>, gen: seq<Step>, s: Step, t: string)
    ensures multiset(AllTargets(Front(added, gen + [s])))[t] ==
            multiset(AllTargets(Front(added, gen)))[t]
            + if s.stepType == DeployCloudResource then Times(CountWithin(added, s.stepType, s.policies), Had(s, t)) else 0
  {
    var n := CountWithin(added, s.stepType, s.policies);
    assert (gen + [s])[..|gen|] == gen;
    if s.stepType == DeployCloudResource {
      CopiesTargets(s, n, t);
      AllTargetsConcat(Copies(s, n), Front(added, gen));
    } else {
      assert [] + Front(added, gen) == Front(added, gen);
    }
  }

  lemma BackLast(added: set<string>, gen: seq<Step>, s: Step, t: string)
    ensures multiset(AllTargets(Back(added, gen + [s])))[t] ==
            multiset(AllTargets(Back(added, gen)))[t]
            + if s.stepType != DeployCloudResource then Times(CountWithin(added, s.stepType, s.policies), Had(s, t)) else 0
  {
    var n := CountWithin(added, s.stepType, s.policies);
    assert (gen + [s])[..|gen|] == gen;
    if s.stepType != DeployCloudResource {
      CopiesTargets(s, n, t);
      AllTargetsConcat(Back(added, gen), Copies(s, n));
    } else {
      assert Back(added, gen) + [] == Back(added, gen);
    }
  }

  lemma {:induction false} BroughtCount(added: set<string>, gen: seq<Step>, t: string)
    ensures multiset(AllTargets(Front(added, gen)))[t] + multiset(AllTargets(Back(added, gen)))[t] == Placements(added, gen, t)
  {
    if gen != [] {
      var init, s := gen[..|gen| - 1], gen[|gen| - 1];
      assert gen == init + [s];
      BroughtCount(added, init, t);
      FrontLast(added, init, s, t);
      BackLast(added, init, s, t);
    }
  }

  /** A generated step is placed once with all its targets added, or not at all with none added. */
  ghost predicate PlacedWhole(added: set<string>, s: Step) {
    var n, targets := CountWithin(added, s.stepType, s.policies), TargetsOf(s.stepType, s.policies);
    && (n >= 1 ==> forall t :: t in targets ==> n == 1 && t in added)
    && (n == 0 ==> forall t :: t in targets ==> t !in added)
  }

  lemma {:induction false} WholePlacements(added: set<string>, gen: seq<Step>, t: string)
    requires forall s :: s in gen ==> PlacedWhole(added, s)
    ensures Placements(added, gen, t) == if t in added then multiset(AllTargets(gen))[t] else 0
  {
    if gen != [] {
      var init, s := gen[..|gen| - 1], gen[|gen| - 1];
      assert gen == init + [s];
      WholePlacements(added, init, t);
      assert multiset(AllTargets(gen)) == multiset(AllTargets(init)) + multiset(TargetsOf(s.stepType, s.policies));
      assert PlacedWhole(added, s);
      WholeStep(added, s, t);
    }
  }

  lemma WholeStep(added: set<string>, s: Step, t: string)
    requires PlacedWhole(added, s)
    ensures Times(CountWithin(added, s.stepType, s.policies), Had(s, t)) == if t in added then Had(s, t) else 0
  {
    var n, targets := CountWithin(added, s.stepType, s.policies), TargetsOf(s.stepType, s.policies);
    assert t in targets <==> t in multiset(targets);
    if t in targets {
      assert n <= 1 && Times(1, Had(s, t)) == Times(0, Had(s, t)) + Had(s, t);
    } else {
      TimesNone(n);
    }
  }

  // ---------------------------------------------------------------- coverage

  /** How often the reconciled workflow deploys to each target. */
  lemma DeployedCount(stored: seq<Step>, gen: seq<Step>, t: string)
    requires Clean(Gone(AllTargets(stored), AllTargets(gen)), stored)
    ensures
      var was, now := multiset(AllTargets(stored))[t], multiset(AllTargets(gen))[t];
      Deployed(stored, gen)[t] ==
        (if was == 1 && now > 0 then 1 else 0) + Placements(Added(AllTargets(stored), AllTargets(gen)), gen, t)
  {
    var o, g := AllTargets(stored), AllTargets(gen);
    var gone, added := Gone(o, g), Added(o, g);
    StoredDeploysCount(gone, stored, stored, t);
    BroughtCount(added, gen, t);
    assert t in o <==> t in multiset(o);
    assert t in g <==> t in multiset(g);
  }

  lemma {:induction false} OnlyGeneratedPlaced(added: set<string>, gen: seq<Step>, t: string)
    requires t !in AllTargets(gen)
    ensures Placements(added, gen, t) == 0
  {
    if gen != [] {
      var init, s := gen[..|gen| - 1], gen[|gen| - 1];
      OnlyGeneratedPlaced(added, init, t);
      assert t !in multiset(TargetsOf(s.stepType, s.policies));
      TimesNone(CountWithin(added, s.stepType, s.policies));
    }
  }

  ghost predicate CoversEachOnce(stored: seq<Step>, gen: seq<Step>) {
    forall t :: Deployed(stored, gen)[t] == if t in AllTargets(gen) then 1 else 0
  }

  /** Each generated target is deployed to exactly once, and no other target at all, exactly
      when the placed steps hold no generated target that is stored once and hold every other
      generated target once. */
  lemma CoversEachOnceIff(stored: seq<Step>, gen: seq<Step>)
    requires Clean(Gone(AllTargets(stored), AllTargets(gen)), stored)
    ensures CoversEachOnce(stored, gen) <==>
            forall t :: t in AllTargets(gen) ==>
              Placements(Added(AllTargets(stored), AllTargets(gen)), gen, t) ==
              if multiset(AllTargets(stored))[t] == 1 then 0 else 1
  {
    var o, g := AllTargets(stored), AllTargets(gen);
    var added := Added(o, g);
    forall t
      ensures Deployed(stored, gen)[t] == (if t in g then 1 else 0) <==>
              (t in g ==> Placements(added, gen, t) == if multiset(o)[t] == 1 then 0 else 1)
    {
      DeployedCount(stored, gen, t);
      assert t in g <==> t in multiset(g);
      if t !in g {
        OnlyGeneratedPlaced(added, gen, t);
      }
    }
  }

  /** Where generated steps are placed as a whole: exactly when no generated target is stored twice
      and none of the missing ones is generated twice. */
  lemma WholeStepsCoverIff(stored: seq<Step>, gen: seq<Step>)
    requires Clean(Gone(AllTargets(stored), AllTargets(gen)), stored)
    requires forall s :: s in gen ==> PlacedWhole(Added(AllTargets(stored), AllTargets(gen)), s)
    ensures CoversEachOnce(stored, gen) <==>
            forall t :: t in AllTargets(gen) ==>
              var was, now := multiset(AllTargets(stored))[t], multiset(AllTargets(gen))[t];
              was <= 1 && (was == 0 ==> now == 1)
  {
    var o, g := AllTargets(stored), AllTargets(gen);
    CoversEachOnceIff(stored, gen);
    forall t | t in g
      ensures Placements(Added(o, g), gen, t) == (if multiset(o)[t] == 1 then 0 else 1) <==>
              multiset(o)[t] <= 1 && (multiset(o)[t] == 0 ==> multiset(g)[t] == 1)
    {
      WholePlacements(Added(o, g), gen, t);
      assert t in o <==> t in multiset(o);
    }
  }

  ghost predicate Distinct(s: seq<string>) {
    forall t :: multiset(s)[t] <= 1
  }

  lemma DistinctTargetsCovered(stored: seq<Step>, gen: seq<Step>)
    requires Clean(Gone(AllTargets(stored), AllTargets(gen)), stored)
    requires forall s :: s in gen ==> PlacedWhole(Added(AllTargets(stored), AllTargets(gen)), s)
    requires Distinct(AllTargets(stored)) && Distinct(AllTargets(gen))
    ensures Deployed(stored, gen) == multiset(AllTargets(gen))
  {
    var o, g := AllTargets(stored), AllTargets(gen);
    forall t
      ensures Deployed(stored, gen)[t] == multiset(g)[t]
    {
      DeployedCount(stored, gen, t);
      WholePlacements(Added(o, g), gen, t);
      assert t in o <==> t in multiset(o);
      assert t in g <==> t in multiset(g);
    }
  }

  // ---------------------------------------------------------------- single targets

  ghost predicate SingleTarget(steps: seq<Step>) {
    forall s, p :: s in steps && p in s.policies ==> |p.targets| == 1
  }

  /** No step of several policies shares one with a step of the other kind of target. */
  ghost predicate NotSharedAcross(steps: seq<Step>) {
    forall s, s', p :: s in steps && s' in steps && |s.policies| >= 2 && p in s.policies && p in s'.policies ==>
      (s.stepType == DeployCloudResource <==> s'.stepType == DeployCloudResource)
  }

  lemma CachedAlike(a: StepType, b: StepType, targets: seq<string>)
    requires a == DeployCloudResource <==> b == DeployCloudResource
    ensures CacheTargets(a, targets) == CacheTargets(b, targets)
  {
  }

  lemma OneTarget(targets: set<string>, stepType: StepType, p: Policy)
    requires |p.targets| == 1
    ensures |CacheTargets(stepType, p.targets)| == 1
    ensures Within(targets, stepType, p) || Untouched(targets, stepType, p)
  {
    if stepType == DeployCloudResource {
      assert p.targets[1..] == [];
      assert CacheTargets(stepType, p.targets) == ["c-" + p.targets[0]];
    }
    assert CacheTargets(stepType, p.targets) == [CacheTargets(stepType, p.targets)[0]];
  }

  /** Stored policies of one target each are clean, unless a step of several policies shares one
      with a step of the other kind. */
  lemma SingleTargetsAreClean(gone: set<string>, stored: seq<Step>)
    requires SingleTarget(stored) && NotSharedAcross(stored)
    ensures Clean(gone, stored)
  {
    forall s | s in stored
      ensures CleanStep(gone, stored, s)
    {
      forall p | p in s.policies
        ensures Within(gone, s.stepType, p) || Untouched(gone, s.stepType, p)
        ensures OldVerdict(gone, s, Keep) == Modify && WithinSome(gone, stored, p) ==> Within(gone, s.stepType, p)
      {
        OneTarget(gone, s.stepType, p);
        if OldVerdict(gone, s, Keep) == Modify && WithinSome(gone, stored, p) {
          ModifiedHoldsSeveral(gone, s);
          var s' :| s' in stored && p in s'.policies && Within(gone, s'.stepType, p);
          CachedAlike(s.stepType, s'.stepType, p.targets);
        }
      }
    }
  }

  /** Generated steps of one policy with one target are placed as a whole. */
  lemma SingleTargetsArePlacedWhole(added: set<string>, s: Step)
    requires |s.policies| <= 1 && forall p :: p in s.policies ==> |p.targets| == 1
    ensures PlacedWhole(added, s)
  {
    if |s.policies| == 1 {
      var p := s.policies[0];
      assert p in s.policies && s.policies[..0] == [];
      OneTarget(added, s.stepType, p);
      assert TargetsOf(s.stepType, s.policies) == [] + CacheTargets(s.stepType, p.targets) == CacheTargets(s.stepType, p.targets);
    }
  }

  // ---------------------------------------------------------------- comparing again

  /** Nothing is marked and nothing added. */
  ghost predicate AllKept(gone: set<string>, added: set<string>, stored: seq<Step>, gen: seq<Step>) {
    && (forall s :: s in stored ==> OldVerdict(gone, s, Keep) == Keep)
    && (forall p :: p in PoliciesOf(stored) ==> !WithinSome(gone, stored, p))
    && (forall p :: p in PoliciesOf(gen) ==> !WithinSome(added, gen, p))
    && Assembled(added, stored, gen) == stored
  }

  ghost predicate EveryPolicyHasTarget(steps: seq<Step>) {
    forall p :: p in PoliciesOf(steps) ==> p.targets != []
  }

  lemma WithinNothing(stepType: StepType, p: Policy)
    ensures Within({}, stepType, p) <==> p.targets == []
  {
    if p.targets != [] {
      assert CacheTargets(stepType, p.targets)[0] in CacheTargets(stepType, p.targets);
    }
  }

  lemma {:induction false} CountNothing(stepType: StepType, ps: seq<Policy>)
    requires forall p :: p in ps ==> p.targets != []
    ensures CountWithin({}, stepType, ps) == 0
  {
    if ps != [] {
      CountNothing(stepType, ps[..|ps| - 1]);
      WithinNothing(stepType, ps[|ps| - 1]);
    }
  }

  lemma {:induction false} NothingBrought(gen: seq<Step>)
    requires EveryPolicyHasTarget(gen)
    ensures Front({}, gen) == [] && Back({}, gen) == []
  {
    if gen != [] {
      var init, s := gen[..|gen| - 1], gen[|gen| - 1];
      assert forall p :: p in PoliciesOf(init) ==> p in PoliciesOf(gen);
      NothingBrought(init);
      assert forall p :: p in s.policies ==> p in PoliciesOf(gen);
      CountNothing(s.stepType, s.policies);
    }
  }

  lemma NoTargetWithinNothing(steps: seq<Step>, p: Policy)
    requires p in PoliciesOf(steps)
    ensures WithinSome({}, steps, p) <==> p.targets == []
  {
    var s :| s in steps && p in s.policies;
    WithinNothing(s.stepType, p);
    if WithinSome({}, steps, p) {
      var s' :| s' in steps && p in s'.policies && Within({}, s'.stepType, p);
      WithinNothing(s'.stepType, p);
    }
  }

  lemma KeptWithTargets(stored: seq<Step>, gen: seq<Step>)
    requires EveryPolicyHasTarget(stored) && EveryPolicyHasTarget(gen)
    ensures AllKept({}, {}, stored, gen)
  {
    forall s | s in stored
      ensures OldVerdict({}, s, Keep) == Keep
    {
      assert forall p :: p in s.policies ==> p in PoliciesOf(stored);
      CountNothing(s.stepType, s.policies);
    }
    NothingBrought(gen);
    AssembledParts({}, stored, gen);
    assert [] + stored + [] == stored;
    forall p | p in PoliciesOf(stored)
      ensures !WithinSome({}, stored, p)
    {
      NoTargetWithinNothing(stored, p);
    }
    forall p | p in PoliciesOf(gen)
      ensures !WithinSome({}, gen, p)
    {
      NoTargetWithinNothing(gen, p);
    }
  }

  /** Comparing again, once the targets agree, keeps every step and policy and adds nothing,
      exactly when every policy has a target. */
  lemma ComparingAgainKeepsAll(stored: seq<Step>, gen: seq<Step>)
    requires Items(AllTargets(stored)) == Items(AllTargets(gen)) && Distinct(AllTargets(stored))
    ensures AllKept(Gone(AllTargets(stored), AllTargets(gen)), Added(AllTargets(stored), AllTargets(gen)), stored, gen) <==>
            EveryPolicyHasTarget(stored) && EveryPolicyHasTarget(gen)
  {
    NothingGoneOrAdded(AllTargets(stored), AllTargets(gen));
    if EveryPolicyHasTarget(stored) && EveryPolicyHasTarget(gen) {
      KeptWithTargets(stored, gen);
    } else if p :| p in PoliciesOf(stored) && p.targets == [] {
      NoTargetWithinNothing(stored, p);
    } else {
      var p :| p in PoliciesOf(gen) && p.targets == [];
      NoTargetWithinNothing(gen, p);
    }
  }

  /** A stored step and an equal generated one whose policy has no targets: comparing them deletes
      the first and adds the second. */
  method CompareWithoutTargets(name: string) returns (stored: Step, gen: Step, steps: seq<Step>)
    ensures stored.name == gen.name == name && stored.stepType == gen.stepType == Deploy
    ensures |stored.policies| == |gen.policies| == 1
    ensures stored.policies[0].targets == gen.policies[0].targets == []
    ensures stored.state == stored.policies[0].state == Delete
    ensures gen.state == gen.policies[0].state == New && steps == [stored, gen]
  {
    var p := new Policy(name, Topology, []);
    var q := new Policy(name, Topology, []);
    stored := new Step(name, Deploy, [p]);
    gen := new Step(name, Deploy, [q]);
    hide AllTargets, TargetsOf, CountWithin, Within, WithinSome, PoliciesOf;
    SeparateSteps(stored, gen, p, q);
    steps := CompareWorkflowSteps([stored], [gen]);
    TargetlessStep(Gone(AllTargets([stored]), AllTargets([gen])), stored, p);
    TargetlessStep(Added(AllTargets([stored]), AllTargets([gen])), gen, q);
    assert [gen][..0] == [] && Placed(gen, 1, [stored]) == Place(gen, Placed(gen, 0, [stored])) == [stored] + [gen];
  }

  lemma SeparateSteps(s: Step, s': Step, p: Policy, p': Policy)
    requires s != s' && p != p' && s.policies == [p] && s'.policies == [p']
    ensures Separate([s], [s']) && PoliciesOf([s]) == {p} && PoliciesOf([s']) == {p'}
  {
    assert s in [s] && p in s.policies && s' in [s'] && p' in s'.policies;
  }

  lemma TargetlessStep(targets: set<string>, s: Step, p: Policy)
    requires s.stepType == Deploy && s.policies == [p] && p.targets == []
    ensures CountWithin(targets, Deploy, s.policies) == 1
    ensures s in [s] && p in PoliciesOf([s]) && WithinSome(targets, [s], p)
  {
    assert [p][..0] == [];
    assert s in [s] && p in s.policies && Within(targets, s.stepType, p);
  }

  lemma NothingGoneOrAdded(stored: seq<string>, gen: seq<string>)
    requires Items(stored) == Items(gen) && Distinct(stored)
    ensures Gone(stored, gen) == {} && Added(stored, gen) == {}
  {
    assert forall t :: t in stored <==> t in Items(stored);
    assert forall t :: t in gen <==> t in Items(gen);
  }

  /** A generated target that is stored twice is dropped; it is then deployed to only where a placed
      step brings it along with a target that was missing. */
  lemma StoredTwiceIsLostIff(stored: seq<Step>, gen: seq<Step>, t: string)
    requires Clean(Gone(AllTargets(stored), AllTargets(gen)), stored)
    requires t in AllTargets(gen) && multiset(AllTargets(stored))[t] >= 2
    ensures Deployed(stored, gen)[t] == 0 <==>
            Placements(Added(AllTargets(stored), AllTargets(gen)), gen, t) == 0
    ensures (forall s :: s in gen ==> PlacedWhole(Added(AllTargets(stored), AllTargets(gen)), s)) ==> Deployed(stored, gen)[t] == 0
  {
    var added := Added(AllTargets(stored), AllTargets(gen));
    DeployedCount(stored, gen, t);
    if forall s :: s in gen ==> PlacedWhole(added, s) {
      WholePlacements(added, gen, t);
      assert t in AllTargets(stored) <==> t in multiset(AllTargets(stored));
    }
  }

  lemma DeployStepOf(targets: set<string>, s: Step, p: Policy, t: string)
    requires s.stepType == Deploy && s.policies == [p] && p.targets == [t]
    ensures TargetsOf(Deploy, s.policies) == [t]
    ensures CountWithin(targets, Deploy, s.policies) == if t in targets then 1 else 0
  {
    assert [p][..0] == [];
    assert TargetsOf(Deploy, [p]) == TargetsOf(Deploy, [p][..0]) + [t] == [t];
    assert Within(targets, Deploy, p) <==> t in targets;
  }

  lemma DeploySteps(a: Step, b: Step, t: string, u: string)
    requires a.stepType == b.stepType == Deploy && TargetsOf(Deploy, a.policies) == [t] && TargetsOf(Deploy, b.policies) == [u]
    ensures AllTargets([a]) == [t] && AllTargets([a, b]) == [t, u]
  {
    hide TargetsOf;
    assert [a][..0] == [] && [a, b][..1] == [a];
    assert AllTargets([a]) == AllTargets([a][..0]) + [t] == [t];
    assert AllTargets([a, b]) == AllTargets([a]) + [u];
  }

  /** Two stored deploy steps for one target, which is also generated: both are deleted and nothing is
      placed, so that nothing deploys to it any more. */
  method CompareStoredTwice(t: string) returns (first: Step, second: Step, gen: Step, steps: seq<Step>)
    ensures AllTargets([first, second]) == [t, t] && AllTargets([gen]) == [t]
    ensures first.state == second.state == Delete && steps == [first, second]
  {
    var p := new Policy("a", Topology, [t]);
    var q := new Policy("b", Topology, [t]);
    var r := new Policy("c", Topology, [t]);
    first := new Step("a", Deploy, [p]);
    second := new Step("b", Deploy, [q]);
    gen := new Step("c", Deploy, [r]);
    ghost var stored := [first, second];
    DeployStepOf({}, first, p, t);
    DeployStepOf({}, second, q, t);
    DeployStepOf({}, gen, r, t);
    DeploySteps(first, second, t, t);
    DeploySteps(gen, gen, t, t);
    assert Separate(stored, [gen]);
    hide AllTargets, TargetsOf, CountWithin, Within, WithinSome, PoliciesOf, Separate;
    steps := CompareWorkflowSteps([first, second], [gen]);
    StoredTwiceGone(t);
    DeployStepOf({t}, first, p, t);
    DeployStepOf({t}, second, q, t);
    assert [gen][..0] == [] && Assembled({}, stored, []) == stored;
    assert first in stored && second in stored;
  }

  lemma StoredTwiceGone(t: string)
    ensures Gone([t, t], [t]) == {t} && Added([t, t], [t]) == {}
  {
    assert multiset([t, t])[t] == 2;
  }

  /** A step is only modified when it holds two policies or more. */
  lemma ModifiedHoldsSeveral(gone: set<string>, s: Step)
    ensures OldVerdict(gone, s, Keep) == Modify ==> |s.policies| >= 2
    ensures OldVerdict(gone, s, Keep) == Modify ==>
              0 < |Without(gone, s.stepType, s.policies)| < |s.policies|
  {
    WithoutCounts(gone, s.stepType, s.policies);
  }
}
