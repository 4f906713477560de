/** Comparing an environment's stored workflow steps with the generated ones. Policies
    are objects shared between steps; the comparison marks steps and policies in place. */
module WorkflowComparison {
  import opened Slices
  import opened WorkflowModel

  class Policy {
    const name: string
    const policyType: PolicyType
    const targets: seq<string>
    var state: State

    constructor (name: string, policyType: PolicyType, targets: seq<string>)
      ensures this.name == name && this.policyType == policyType && this.targets == targets
      ensures state == Keep
    {
      this.name, this.policyType, this.targets, state := name, policyType, targets, Keep;
    }
  }

  class Step {
    const name: string
    const stepType: StepType
    const policies: seq<Policy>
    var state: State

    constructor (name: string, stepType: StepType, policies: seq<Policy>)
      ensures this.name == name && this.stepType == stepType && this.policies == policies
      ensures state == Keep
    {
      this.name, this.stepType, this.policies, state := name, stepType, policies, Keep;
    }
  }

  // ---------------------------------------------------------------- targets

  /** A cloud-resource step's targets are told apart from a deploy step's by a prefix. */
  function CacheTargets(stepType: StepType, targets: seq<string>): seq<string> {
    if stepType != DeployCloudResource then targets
    else if targets == [] then [] else ["c-" + targets[0]] + CacheTargets(stepType, targets[1..])
  }

  function TargetsOf(stepType: StepType, policies: seq<Policy>): seq<string> {
    if policies == [] then []
    else TargetsOf(stepType, policies[..|policies| - 1]) + CacheTargets(stepType, policies[|policies| - 1].targets)
  }

  function AllTargets(steps: seq<Step>): seq<string> {
    if steps == [] then []
    else
      var s := steps[|steps| - 1];
      AllTargets(steps[..|steps| - 1]) + TargetsOf(s.stepType, s.policies)
  }

  method StepTargets(s: Step) returns (targets: seq<string>)
    ensures targets == TargetsOf(s.stepType, s.policies)
  {
    targets := [];
    for i := 0 to |s.policies|
      invariant targets == TargetsOf(s.stepType, s.policies[..i])
    {
      assert s.policies[..i + 1][..i] == s.policies[..i];
      targets := targets + CacheTargets(s.stepType, s.policies[i].targets);
    }
    assert s.policies[..|s.policies|] == s.policies;
  }

  method CollectTargets(steps: seq<Step>) returns (targets: seq<string>)
    ensures targets == AllTargets(steps)
  {
    targets := [];
    for j := 0 to |steps|
      invariant targets == AllTargets(steps[..j])
    {
      assert steps[..j + 1][..j] == steps[..j];
      var more := StepTargets(steps[j]);
      targets := targets + more;
    }
    assert steps[..|steps|] == steps;
  }

  // ---------------------------------------------------------------- verdicts

  /** The stored targets no longer generated, or stored more than once. */
  ghost function Gone(stored: seq<string>, gen: seq<string>): set<string> {
    set t | t in stored && (t !in gen || multiset(stored)[t] >= 2)
  }

  /** The generated targets not yet stored. */
  ghost function Added(stored: seq<string>, gen: seq<string>): set<string> {
    set t | t in gen && t !in stored
  }

  /** A step drops, or brings, a policy when all the policy's targets are in the given set. */
  ghost predicate Within(targets: set<string>, stepType: StepType, p: Policy) {
    forall t :: t in CacheTargets(stepType, p.targets) ==> t in targets
  }

  ghost predicate WithinSome(targets: set<string>, steps: seq<Step>, p: Policy) {
    exists s :: s in steps && p in s.policies && Within(targets, s.stepType, p)
  }

  lemma WithinSomeLast(targets: set<string>, steps: seq<Step>, s: Step, p: Policy)
    ensures WithinSome(targets, steps + [s], p) <==>
            WithinSome(targets, steps, p) || (p in s.policies && Within(targets, s.stepType, p))
  {
    if p in s.policies && Within(targets, s.stepType, p) {
      assert s in steps + [s];
    }
    if WithinSome(targets, steps, p) {
      var w :| w in steps && p in w.policies && Within(targets, w.stepType, p);
      assert w in steps + [s];
    }
  }

  ghost function CountWithin(targets: set<string>, stepType: StepType, ps: seq<Policy>): (n: nat)
    ensures n <= |ps|
  {
    if ps == [] then 0
    else
      CountWithin(targets, stepType, ps[..|ps| - 1])
      + if Within(targets, stepType, ps[|ps| - 1]) then 1 else 0
  }

  ghost function OldVerdict(gone: set<string>, s: Step, was: State): State {
    var n := CountWithin(gone, s.stepType, s.policies);
    if n != 0 && n == |s.policies| then Delete else if n != 0 then Modify else was
  }

  ghost function NewVerdict(added: set<string>, s: Step, was: State): State {
    if CountWithin(added, s.stepType, s.policies) > 0 then New else was
  }

  ghost predicate HasCloudStep(steps: seq<Step>) {
    exists s :: s in steps && s.stepType == DeployCloudResource
  }

  lemma HasCloudLast(steps: seq<Step>, s: Step)
    ensures HasCloudStep(steps + [s]) <==> HasCloudStep(steps) || s.stepType == DeployCloudResource
  {
    if s.stepType == DeployCloudResource {
      assert s in steps + [s];
    }
    if HasCloudStep(steps) {
      var w :| w in steps && w.stepType == DeployCloudResource;
      assert w in steps + [s];
    }
  }

  ghost function NewPolicyVerdict(cloudExists: bool, p: Policy): State {
    if p.policyType == EnvBinding && cloudExists then Update else New
  }

  /** Where a generated step goes: in front for cloud resources, else at the end. */
  function Place(s: Step, steps: seq<Step>): seq<Step> {
    if s.stepType == DeployCloudResource then [s] + steps else steps + [s]
  }

  ghost function Placed(s: Step, n: nat, steps: seq<Step>): seq<Step> {
    if n == 0 then steps else Place(s, Placed(s, n - 1, steps))
  }

  ghost function Copies(s: Step, n: nat): seq<Step> {
    if n == 0 then [] else [s] + Copies(s, n - 1)
  }

  lemma {:induction false} CopiesEndAlike(s: Step, n: nat)
    ensures [s] + Copies(s, n) == Copies(s, n) + [s]
  {
    if n > 0 {
      CopiesEndAlike(s, n - 1);
    }
  }

  /** The generated cloud-resource steps that bring a target, last generated first, and one
      copy for each policy that brings targets. */
  ghost function Front(added: set<string>, gen: seq<Step>): seq<Step> {
    if gen == [] then []
    else
      var s := gen[|gen| - 1];
      (if s.stepType == DeployCloudResource then Copies(s, CountWithin(added, s.stepType, s.policies)) else [])
      + Front(added, gen[..|gen| - 1])
  }

  /** The other generated steps that bring a target, in the order generated. */
  ghost function Back(added: set<string>, gen: seq<Step>): seq<Step> {
    if gen == [] then []
    else
      var s := gen[|gen| - 1];
      Back(added, gen[..|gen| - 1])
      + if s.stepType != DeployCloudResource then Copies(s, CountWithin(added, s.stepType, s.policies)) else []
  }

  /** The steps after the comparison: the stored ones, with each generated step that brings
      targets placed around them. */
  ghost function Assembled(added: set<string>, stored: seq<Step>, gen: seq<Step>): seq<Step> {
    if gen == [] then stored
    else
      var s := gen[|gen| - 1];
      Placed(s, CountWithin(added, s.stepType, s.policies), Assembled(added, stored, gen[..|gen| - 1]))
  }

  // ---------------------------------------------------------------- compareWorkflowSteps

  ghost function PoliciesOf(steps: seq<Step>): set<Policy> {
    set s, p | s in steps && p in s.policies :: p
  }

  /** Stored and generated steps are separate objects holding separate policies. */
  ghost predicate Separate(stored: seq<Step>, gen: seq<Step>) {
    && (forall s :: s in stored ==> s !in gen)
    && PoliciesOf(stored) !! PoliciesOf(gen)
  }

  method MarkOldStep(s: Step, needDeleted: seq<string>)
    modifies s, s.policies
    ensures forall p :: p in s.policies ==>
              p.state == if Within(Items(needDeleted), s.stepType, p) then Delete else old(p.state)
    ensures s.state == OldVerdict(Items(needDeleted), s, old(s.state))
  {
    ghost var gone := Items(needDeleted);
    var n := 0;
    for i := 0 to |s.policies|
      invariant n == CountWithin(gone, s.stepType, s.policies[..i])
      invariant forall p :: p in s.policies ==>
                  p.state == if p in s.policies[..i] && Within(gone, s.stepType, p) then Delete else old(p.state)
      invariant s.state == old(s.state)
    {
      assert s.policies[..i + 1][..i] == s.policies[..i];
      var p := s.policies[i];
      var covered := SliceIncludeSlice(needDeleted, CacheTargets(s.stepType, p.targets));
      if covered {
        p.state := Delete;
        n := n + 1;
      }
    }
    assert s.policies[..|s.policies|] == s.policies;
    if n != 0 && n == |s.policies| {
      s.state := Delete;
    } else if n != 0 {
      s.state := Modify;
    }
  }

  method MarkOldSteps(stored: seq<Step>, needDeleted: seq<string>) returns (cloudExists: bool)
    modifies stored, PoliciesOf(stored)
    ensures forall s :: s in stored ==> s.state == OldVerdict(Items(needDeleted), s, old(s.state))
    ensures forall p :: p in PoliciesOf(stored) ==>
              p.state == if WithinSome(Items(needDeleted), stored, p) then Delete else old(p.state)
    ensures cloudExists <==> HasCloudStep(stored)
  {
    ghost var gone := Items(needDeleted);
    cloudExists := false;
    for j := 0 to |stored|
      invariant forall s :: s in stored ==>
                  s.state == if s in stored[..j] then OldVerdict(gone, s, old(s.state)) else old(s.state)
      invariant forall p :: p in PoliciesOf(stored) ==>
                  p.state == if WithinSome(gone, stored[..j], p) then Delete else old(p.state)
      invariant cloudExists <==> HasCloudStep(stored[..j])
    {
      var s := stored[j];
      assert stored[..j + 1] == stored[..j] + [s];
      HasCloudLast(stored[..j], s);
      assert forall p :: p in s.policies ==> p in PoliciesOf(stored);
      label Before:
      MarkOldStep(s, needDeleted);
      forall q | q in stored
        ensures q.state == if q in stored[..j + 1] then OldVerdict(gone, q, old(q.state)) else old(q.state)
      {
        assert q != s ==> q.state == old@Before(q.state);
      }
      forall p | p in PoliciesOf(stored)
        ensures p.state == if WithinSome(gone, stored[..j + 1], p) then Delete else old(p.state)
      {
        assert p !in s.policies ==> p.state == old@Before(p.state);
        WithinSomeLast(gone, stored[..j], s, p);
      }
      if s.stepType == DeployCloudResource {
        cloudExists := true;
      }
    }
    assert stored[..|stored|] == stored;
  }

  method MarkNewPolicy(s: Step, p: Policy, needAdded: seq<string>, cloudExists: bool) returns (covered: bool)
    modifies s, p
    ensures covered <==> Within(Items(needAdded), s.stepType, p)
    ensures p.state == if covered then NewPolicyVerdict(cloudExists, p) else old(p.state)
    ensures s.state == if covered then New else old(s.state)
  {
    covered := SliceIncludeSlice(needAdded, CacheTargets(s.stepType, p.targets));
    if covered {
      if p.policyType == EnvBinding && cloudExists {
        p.state := Update;
      } else {
        p.state := New;
      }
      s.state := New;
    }
  }

  method MarkNewStep(s: Step, needAdded: seq<string>, cloudExists: bool, steps: seq<Step>) returns (steps': seq<Step>)
    modifies s, s.policies
    ensures forall p :: p in s.policies ==>
              p.state == if Within(Items(needAdded), s.stepType, p) then NewPolicyVerdict(cloudExists, p) else old(p.state)
    ensures s.state == NewVerdict(Items(needAdded), s, old(s.state))
    ensures steps' == Placed(s, CountWithin(Items(needAdded), s.stepType, s.policies), steps)
  {
    hide Within, NewPolicyVerdict, Items;
    ghost var added := Items(needAdded);
    steps' := steps;
    ghost var n := 0;
    for i := 0 to |s.policies|
      invariant n == CountWithin(added, s.stepType, s.policies[..i])
      invariant forall p :: p in s.policies ==>
                  p.state == if p in s.policies[..i] && Within(added, s.stepType, p)
                             then NewPolicyVerdict(cloudExists, p) else old(p.state)
      invariant s.state == if n > 0 then New else old(s.state)
      invariant steps' == Placed(s, n, steps)
    {
      assert s.policies[..i + 1][..i] == s.policies[..i];
      assert forall p :: p in s.policies[..i + 1] <==> p in s.policies[..i] || p == s.policies[i];
      var covered := MarkNewPolicy(s, s.policies[i], needAdded, cloudExists);
      if covered {
        steps' := Place(s, steps');
        n := n + 1;
      }
    }
    assert s.policies[..|s.policies|] == s.policies;
  }

  method MarkNewSteps(stored: seq<Step>, needAdded: seq<string>, cloudExists: bool, gen: seq<Step>) returns (steps: seq<Step>)
    modifies gen, PoliciesOf(gen)
    ensures forall s :: s in gen ==> s.state == NewVerdict(Items(needAdded), s, old(s.state))
    ensures forall p :: p in PoliciesOf(gen) ==>
              p.state == if WithinSome(Items(needAdded), gen, p) then NewPolicyVerdict(cloudExists, p) else old(p.state)
    ensures steps == Assembled(Items(needAdded), stored, gen)
  {
    ghost var added := Items(needAdded);
    steps := stored;
    for j := 0 to |gen|
      invariant forall s :: s in gen ==>
                  s.state == if s in gen[..j] then NewVerdict(added, s, old(s.state)) else old(s.state)
      invariant forall p :: p in PoliciesOf(gen) ==>
                  p.state == if WithinSome(added, gen[..j], p) then NewPolicyVerdict(cloudExists, p) else old(p.state)
      invariant steps == Assembled(added, stored, gen[..j])
    {
      var s := gen[j];
      assert gen[..j + 1] == gen[..j] + [s];
      assert forall p :: p in s.policies ==> p in PoliciesOf(gen);
      label Before:
      steps := MarkNewStep(s, needAdded, cloudExists, steps);
      assert gen[..j + 1][..j] == gen[..j];
      forall p | p in PoliciesOf(gen)
        ensures p.state == if WithinSome(added, gen[..j + 1], p) then NewPolicyVerdict(cloudExists, p) else old(p.state)
      {
        assert p !in s.policies ==> p.state == old@Before(p.state);
        WithinSomeLast(added, gen[..j], s, p);
      }
    }
    assert gen[..|gen|] == gen;
  }

  lemma {:induction false} PlacedCopies(s: Step, n: nat, steps: seq<Step>)
    ensures Placed(s, n, steps) == if s.stepType == DeployCloudResource then Copies(s, n) + steps else steps + Copies(s, n)
  {
    if n > 0 {
      PlacedCopies(s, n - 1, steps);
      CopiesEndAlike(s, n - 1);
    }
  }

  lemma Regrouped<T>(a: seq<T>, b: seq<T>, c: seq<T>, d: seq<T>)
    ensures a + (b + c + d) == (a + b) + c + d
    ensures (b + c + d) + a == b + c + (d + a)
    ensures [] + b == b && d + [] == d
  {
  }

  /** New cloud-resource steps come first, then the stored steps in their order, then the other
      new steps. */
  lemma {:induction false} AssembledParts(added: set<string>, stored: seq<Step>, gen: seq<Step>)
    ensures Assembled(added, stored, gen) == Front(added, gen) + stored + Back(added, gen)
  {
    if gen == [] {
      assert [] + stored + [] == stored;
    } else {
      var init, s := gen[..|gen| - 1], gen[|gen| - 1];
      var n := CountWithin(added, s.stepType, s.policies);
      AssembledParts(added, stored, init);
      PlacedCopies(s, n, Assembled(added, stored, init));
      Regrouped(Copies(s, n), Front(added, init), stored, Back(added, init));
    }
  }

  lemma NeededTargets(stored: seq<string>, gen: seq<string>, both: seq<string>, onlyStored: seq<string>, onlyGen: seq<string>)
    requires OnceEach(both, Items(stored) * Items(gen))
    requires multiset(both) + multiset(onlyStored) == multiset(stored)
    requires OnceEach(onlyGen, Items(gen) - Items(stored))
    ensures Items(onlyStored) == Gone(stored, gen)
    ensures Items(onlyGen) == Added(stored, gen)
  {
    forall t
      ensures t in onlyStored <==> t in Gone(stored, gen)
      ensures t in onlyGen <==> t in Added(stored, gen)
    {
      assert multiset(stored)[t] == multiset(both)[t] + multiset(onlyStored)[t];
      assert t in onlyStored <==> t in multiset(onlyStored);
      assert t in onlyGen <==> t in multiset(onlyGen);
      assert t in stored <==> t in multiset(stored);
    }
  }

  method CompareWorkflowSteps(stored: seq<Step>, gen: seq<Step>) returns (steps: seq<Step>)
    requires Separate(stored, gen)
    modifies stored, gen, PoliciesOf(stored), PoliciesOf(gen)
    ensures
      var gone, added := Gone(AllTargets(stored), AllTargets(gen)), Added(AllTargets(stored), AllTargets(gen));
      && (forall s :: s in stored ==> s.state == OldVerdict(gone, s, old(s.state)))
      && (forall p :: p in PoliciesOf(stored) ==>
            p.state == if WithinSome(gone, stored, p) then Delete else old(p.state))
      && (forall s :: s in gen ==> s.state == NewVerdict(added, s, old(s.state)))
      && (forall p :: p in PoliciesOf(gen) ==>
            p.state == if WithinSome(added, gen, p) then NewPolicyVerdict(HasCloudStep(stored), p) else old(p.state))
      && steps == Assembled(added, stored, gen)
  {
    var oldTargets := CollectTargets(stored);
    var newTargets := CollectTargets(gen);
    var both, needDeleted, needAdded := ThreeWaySliceCompare(oldTargets, newTargets);
    NeededTargets(oldTargets, newTargets, both, needDeleted, needAdded);
    var cloudExists := MarkOldSteps(stored, needDeleted);
    steps := MarkNewSteps(stored, needAdded, cloudExists, gen);
  }
}
