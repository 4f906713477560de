/** Which stored steps an update writes again, and what becomes of steps that have one name: steps are
    written from the last one stored under their name. */
module WorkflowNamesakes {
  import opened WorkflowModel
  import opened WorkflowComparison
  import opened WorkflowCoverage
  import opened WorkflowReconciliation
  import opened WorkflowRecords

  // ---------------------------------------------------------------- steps that take part

  ghost predicate AllTracked(ws: seq<WorkflowStep>, keys: set<string>) {
    forall w :: w in ws ==> Track(w, keys).Tracked?
  }

  lemma {:induction false} TrackedAllIff(ws: seq<WorkflowStep>, keys: set<string>)
    ensures |TrackedSteps(ws, keys)| <= |ws|
    ensures |TrackedSteps(ws, keys)| == |ws| <==> AllTracked(ws, keys)
    ensures AllTracked(ws, keys) ==> TrackedSteps(ws, keys) == ws
  {
    hide Track;
    if ws != [] {
      var init, w := ws[..|ws| - 1], ws[|ws| - 1];
      assert ws == init + [w];
      TrackedAllIff(init, keys);
    }
  }

  /** Where the steps that take part stand among the stored ones. */
  ghost predicate Places(ws: seq<WorkflowStep>, keys: set<string>, at: seq<nat>) {
    && |at| == |TrackedSteps(ws, keys)|
    && (forall k, l :: 0 <= k < l < |at| ==> at[k] < at[l])
    && (forall k :: 0 <= k < |at| ==> at[k] < |ws| && ws[at[k]] == TrackedSteps(ws, keys)[k])
    && (forall i :: 0 <= i < |ws| && Track(ws[i], keys).Tracked? ==> i in at)
  }

  lemma {:induction false} TrackedPlaces(ws: seq<WorkflowStep>, keys: set<string>) returns (at: seq<nat>)
    ensures Places(ws, keys, at)
  {
    hide Track;
    if ws == [] {
      at := [];
    } else {
      var init, w := ws[..|ws| - 1], ws[|ws| - 1];
      var before := TrackedPlaces(init, keys);
      assert ws == init + [w];
      if Track(w, keys).Tracked? {
        at := before + [|init|];
        assert at[|before|] == |init|;
      } else {
        at := before;
        assert TrackedSteps(init, keys) + [] == TrackedSteps(init, keys);
      }
      forall i | 0 <= i < |ws| && Track(ws[i], keys).Tracked?
        ensures i in at
      {
        assert i < |init| ==> i in before && ws[i] == init[i];
      }
    }
  }

  /** A stored step is written again: it takes part, and is not one whose every policy is dropped. */
  ghost predicate WrittenAgain(gone: set<string>, objs: map<string, Policy>, w: WorkflowStep) {
    var t := Track(w, objs.Keys);
    t.Tracked? &&
      var ps := Objects(t.keys, objs);
      ps == [] || CountWithin(gone, w.stepType, ps) < |ps|
  }

  lemma WrittenAgainIff(gone: set<string>, objs: map<string, Policy>, s: Step, w: WorkflowStep)
    requires Follows(s, w, objs)
    ensures WrittenAgain(gone, objs, w) <==> OldVerdict(gone, s, Keep) != Delete
  {
    hide CountWithin, Track, Objects;
  }

  /** `at` places what is written for the stored steps among all of them. */
  ghost predicate WrittenFrom(gone: set<string>, objs: map<string, Policy>, workflow: seq<WorkflowStep>,
                              written: seq<WorkflowStep>, at: seq<nat>)
  {
    && |at| == |written|
    && (forall k, l :: 0 <= k < l < |at| ==> at[k] < at[l])
    && (forall k :: 0 <= k < |at| ==> at[k] < |workflow| && Continues(written[k], workflow[at[k]]))
    && (forall i :: 0 <= i < |workflow| ==> (i in at <==> WrittenAgain(gone, objs, workflow[i])))
  }

  /** Over all stored steps, where steps of one name are alike: in their order, exactly those are
      written again that take part and keep a policy or had none. A step that does not take part, such as one
      whose policy is not stored, is dropped. */
  lemma StoredWrittenIff(gone: set<string>, stored: seq<Step>, workflow: seq<WorkflowStep>, objs: map<string, Policy>)
    returns (at: seq<nat>)
    requires OneStepPerName(workflow) && Built(stored, workflow, objs)
    ensures WrittenFrom(gone, objs, workflow, Retained(gone, stored, stored, StepMap(workflow)), at)
  {
    var tracked := TrackedSteps(workflow, objs.Keys);
    var inner := RetainedInOrder(gone, stored, workflow, objs, |stored|);
    assert stored[..|stored|] == stored;
    var outer := TrackedPlaces(workflow, objs.Keys);
    forall k | 0 <= k < |stored|
      ensures WrittenAgain(gone, objs, tracked[k]) <==> OldVerdict(gone, stored[k], Keep) != Delete
    {
      WrittenAgainIff(gone, objs, stored[k], tracked[k]);
    }
    at := Composed(gone, stored, workflow, objs, Retained(gone, stored, stored, StepMap(workflow)), inner, outer);
  }

  ghost predicate Climbs(at: seq<nat>, limit: nat) {
    && (forall k, l :: 0 <= k < l < |at| ==> at[k] < at[l])
    && (forall k :: 0 <= k < |at| ==> at[k] < limit)
  }

  /** Places among places. */
  function Through(inner: seq<nat>, outer: seq<nat>): (r: seq<nat>)
    requires forall k :: 0 <= k < |inner| ==> inner[k] < |outer|
    ensures |r| == |inner| && forall k :: 0 <= k < |inner| ==> r[k] == outer[inner[k]]
  {
    if inner == [] then [] else Through(inner[..|inner| - 1], outer) + [outer[inner[|inner| - 1]]]
  }

  lemma ThroughHolds(inner: seq<nat>, outer: seq<nat>, limit: nat, i: nat)
    requires Climbs(inner, |outer|) && Climbs(outer, limit)
    ensures Climbs(Through(inner, outer), limit)
    ensures i in Through(inner, outer) <==> exists k :: 0 <= k < |outer| && outer[k] == i && k in inner
  {
    var r := Through(inner, outer);
    if i in r {
      var l :| 0 <= l < |r| && r[l] == i;
      assert inner[l] in inner && outer[inner[l]] == i;
    }
    if k :| 0 <= k < |outer| && outer[k] == i && k in inner {
      var l :| 0 <= l < |inner| && inner[l] == k;
      assert r[l] == i;
    }
  }

  /** The places `outer` of those tracked and the places `inner` of those written among them. */
  ghost predicate Layered(gone: set<string>, stored: seq<Step>, workflow: seq<WorkflowStep>, objs: map<string, Policy>,
                          written: seq<WorkflowStep>, inner: seq<nat>, outer: seq<nat>)
  {
    && |stored| == |TrackedSteps(workflow, objs.Keys)|
    && InOrder(gone, stored, TrackedSteps(workflow, objs.Keys), |stored|, written, inner)
    && Places(workflow, objs.Keys, outer)
    && forall k :: 0 <= k < |stored| ==>
         (WrittenAgain(gone, objs, TrackedSteps(workflow, objs.Keys)[k]) <==> OldVerdict(gone, stored[k], Keep) != Delete)
  }

  lemma LayeredClimbs(gone: set<string>, stored: seq<Step>, workflow: seq<WorkflowStep>, objs: map<string, Policy>,
                      written: seq<WorkflowStep>, inner: seq<nat>, outer: seq<nat>)
    requires Layered(gone, stored, workflow, objs, written, inner, outer)
    ensures Climbs(inner, |outer|) && Climbs(outer, |workflow|) && |inner| == |written|
  {
    hide OldVerdict, Continues, TrackedSteps, WrittenAgain, Track;
  }

  lemma ComposedAt(gone: set<string>, stored: seq<Step>, workflow: seq<WorkflowStep>, objs: map<string, Policy>,
                   written: seq<WorkflowStep>, inner: seq<nat>, outer: seq<nat>, i: nat)
    requires Layered(gone, stored, workflow, objs, written, inner, outer) && i < |workflow|
    ensures WrittenAgain(gone, objs, workflow[i]) <==> exists k :: 0 <= k < |outer| && outer[k] == i && k in inner
  {
    hide OldVerdict, Continues, TrackedSteps;
    var tracked := TrackedSteps(workflow, objs.Keys);
    if WrittenAgain(gone, objs, workflow[i]) {
      assert i in outer;
      var k :| 0 <= k < |outer| && outer[k] == i;
      assert tracked[k] == workflow[i] && k in inner;
    }
    hide WrittenAgain, Track;
    if k :| 0 <= k < |outer| && outer[k] == i && k in inner {
      assert tracked[k] == workflow[i];
    }
  }

  lemma ComposedFrom(gone: set<string>, stored: seq<Step>, workflow: seq<WorkflowStep>, objs: map<string, Policy>,
                     written: seq<WorkflowStep>, inner: seq<nat>, outer: seq<nat>, k: nat)
    requires Layered(gone, stored, workflow, objs, written, inner, outer) && k < |inner| == |written|
    requires inner[k] < |outer| && outer[inner[k]] < |workflow|
    ensures Continues(written[k], workflow[outer[inner[k]]])
  {
    hide OldVerdict, Continues, TrackedSteps, WrittenAgain, Track;
  }

  lemma Composed(gone: set<string>, stored: seq<Step>, workflow: seq<WorkflowStep>, objs: map<string, Policy>,
                 written: seq<WorkflowStep>, inner: seq<nat>, outer: seq<nat>) returns (at: seq<nat>)
    requires Layered(gone, stored, workflow, objs, written, inner, outer)
    ensures WrittenFrom(gone, objs, workflow, written, at)
  {
    hide Layered, Continues, WrittenAgain;
    LayeredClimbs(gone, stored, workflow, objs, written, inner, outer);
    at := Through(inner, outer);
    ThroughHolds(inner, outer, |workflow|, 0);
    forall i | 0 <= i < |workflow|
      ensures i in at <==> WrittenAgain(gone, objs, workflow[i])
    {
      ThroughHolds(inner, outer, |workflow|, i);
      ComposedAt(gone, stored, workflow, objs, written, inner, outer, i);
    }
    forall k | 0 <= k < |at|
      ensures Continues(written[k], workflow[at[k]])
    {
      ComposedFrom(gone, stored, workflow, objs, written, inner, outer, k);
    }
  }

  // ---------------------------------------------------------------- writing back what is kept

  lemma {:induction false} KeptWritten(gone: set<string>, stored: seq<Step>, workflow: seq<WorkflowStep>, objs: map<string, Policy>, j: nat)
    requires Built(stored, workflow, objs) && j <= |stored|
    requires forall s :: s in stored ==> OldVerdict(gone, s, Keep) == Keep
    ensures
      var m, tracked := StepMap(workflow), TrackedSteps(workflow, objs.Keys);
      && |Retained(gone, stored, stored[..j], m)| == j
      && forall k :: 0 <= k < j ==> Retained(gone, stored, stored[..j], m)[k] == Lookup(m, tracked[k].name)
  {
    hide OldVerdict, StepMap, Lookup, TrackedSteps;
    if j > 0 {
      KeptWritten(gone, stored, workflow, objs, j - 1);
      assert stored[..j][..j - 1] == stored[..j - 1];
      assert stored[j - 1] in stored && Follows(stored[j - 1], TrackedSteps(workflow, objs.Keys)[j - 1], objs);
    }
  }

  lemma NothingPlacedIfKept(stored: seq<Step>, gen: seq<Step>)
    requires Assembled(AddedOf(stored, gen), stored, gen) == stored
    ensures Front(AddedOf(stored, gen), gen) == [] && Back(AddedOf(stored, gen), gen) == []
  {
    AssembledParts(AddedOf(stored, gen), stored, gen);
  }

  /** Where the comparison keeps everything, the written workflow is the stored one exactly when
      every step takes part and steps of one name are alike. */
  lemma KeptWrittenBackIff(stored: seq<Step>, gen: seq<Step>, workflow: seq<WorkflowStep>, envSteps: seq<WorkflowStep>, objs: map<string, Policy>)
    requires Built(stored, workflow, objs) && AllKept(GoneOf(stored, gen), AddedOf(stored, gen), stored, gen)
    ensures NewWorkflow(stored, gen, workflow, envSteps) == workflow <==>
            AllTracked(workflow, objs.Keys) && OneStepPerName(workflow)
  {
    var gone := GoneOf(stored, gen);
    var written := Retained(gone, stored, stored, StepMap(workflow));
    NothingPlacedIfKept(stored, gen);
    KeptWritten(gone, stored, workflow, objs, |stored|);
    assert stored[..|stored|] == stored;
    RefoundIff(workflow, objs.Keys, written);
    hide Retained, TrackedSteps, StepMap, Lookup, AllKept, OneStepPerName, AllTracked, Front, Back;
    assert NewWorkflow(stored, gen, workflow, envSteps) == [] + written + [] == written;
  }

  lemma RefoundIff(workflow: seq<WorkflowStep>, keys: set<string>, written: seq<WorkflowStep>)
    requires |written| == |TrackedSteps(workflow, keys)|
    requires forall k :: 0 <= k < |written| ==> written[k] == Lookup(StepMap(workflow), TrackedSteps(workflow, keys)[k].name)
    ensures written == workflow <==> AllTracked(workflow, keys) && OneStepPerName(workflow)
  {
    var m := StepMap(workflow);
    TrackedAllIff(workflow, keys);
    LookupFindsEachIff(workflow);
    hide TrackedSteps, StepMap, Lookup, AllTracked, OneStepPerName;
    if written == workflow {
      forall w | w in workflow
        ensures Lookup(m, w.name) == w
      {
        var k :| 0 <= k < |workflow| && workflow[k] == w;
        assert written[k] == Lookup(m, w.name);
      }
    }
    if AllTracked(workflow, keys) && OneStepPerName(workflow) {
      assert forall k :: 0 <= k < |workflow| ==> workflow[k] in workflow && written[k] == workflow[k];
    }
  }

  // ---------------------------------------------------------------- when names stay unambiguous

  ghost predicate Alike(a: seq<WorkflowStep>, b: seq<WorkflowStep>) {
    forall x, y :: x in a && y in b && x.name == y.name ==> x == y
  }

  lemma OnePerNameIff(ws: seq<WorkflowStep>)
    ensures OneStepPerName(ws) <==> Alike(ws, ws)
  {
    if OneStepPerName(ws) {
      forall x, y | x in ws && y in ws && x.name == y.name
        ensures x == y
      {
        var i :| 0 <= i < |ws| && ws[i] == x;
        var j :| 0 <= j < |ws| && ws[j] == y;
        assert i == j || i < j || j < i;
      }
    }
  }

  lemma {:induction false} BroughtFrom(steps: seq<Step>, ws: seq<WorkflowStep>, x: WorkflowStep)
    requires x in Brought(steps, StepMap(ws)) && forall s :: s in steps ==> exists w :: w in ws && w.name == s.name
    ensures x in ws
  {
    var init, s := steps[..|steps| - 1], steps[|steps| - 1];
    assert s in steps && forall y :: y in init ==> y in steps;
    if x in Brought(init, StepMap(ws)) {
      BroughtFrom(init, ws, x);
    } else {
      LookupFindsNamesake(ws, s.name);
    }
  }

  lemma {:induction false} RetainedFrom(gone: set<string>, stored: seq<Step>, steps: seq<Step>, m: map<string, WorkflowStep>, x: WorkflowStep)
    returns (s: Step)
    requires x in Retained(gone, stored, steps, m)
    ensures s in steps && x in Rewritten(gone, stored, s, Lookup(m, s.name))
  {
    hide Rewritten, Lookup;
    var init, last := steps[..|steps| - 1], steps[|steps| - 1];
    assert steps == init + [last];
    if x in Retained(gone, stored, init, m) {
      s := RetainedFrom(gone, stored, init, m, x);
    } else {
      s := last;
    }
  }

  /** What is written for a stored step depends only on how it was stored. */
  lemma RewrittenAlike(gone: set<string>, stored: seq<Step>, s: Step, s': Step, w: WorkflowStep)
    requires s.policies == s'.policies && s.stepType == s'.stepType
    ensures Rewritten(gone, stored, s, w) == Rewritten(gone, stored, s', w)
  {
  }

  lemma RewrittenNamed(gone: set<string>, stored: seq<Step>, s: Step, w: WorkflowStep)
    ensures |Rewritten(gone, stored, s, w)| <= 1
    ensures forall x :: x in Rewritten(gone, stored, s, w) ==> x.name == w.name
  {
    hide CountWithin, Staying, Names;
  }

  lemma RetainedAlike(gone: set<string>, stored: seq<Step>, workflow: seq<WorkflowStep>, objs: map<string, Policy>)
    requires OneStepPerName(workflow) && Built(stored, workflow, objs)
    ensures Alike(Retained(gone, stored, stored, StepMap(workflow)), Retained(gone, stored, stored, StepMap(workflow)))
  {
    var m := StepMap(workflow);
    var written := Retained(gone, stored, stored, m);
    forall x, y | x in written && y in written && x.name == y.name
      ensures x == y
    {
      var s := RetainedFrom(gone, stored, stored, m, x);
      var s' := RetainedFrom(gone, stored, stored, m, y);
      var w := BuiltFollows(stored, workflow, objs, s);
      var w' := BuiltFollows(stored, workflow, objs, s');
      LookupFindsEachIff(workflow);
      RewrittenNamed(gone, stored, s, w);
      RewrittenNamed(gone, stored, s', w');
      assert w == w';
      RewrittenAlike(gone, stored, s, s', w);
    }
  }

  lemma BuiltFollows(steps: seq<Step>, ws: seq<WorkflowStep>, objs: map<string, Policy>, s: Step) returns (w: WorkflowStep)
    requires Built(steps, ws, objs) && s in steps
    ensures w in ws && Follows(s, w, objs)
  {
    var j :| 0 <= j < |steps| && steps[j] == s;
    w := TrackedSteps(ws, objs.Keys)[j];
    assert w in TrackedSteps(ws, objs.Keys) && Follows(steps[j], w, objs);
  }

  /** What is written for the placed steps, in front and at the end. */
  ghost function WrittenPlaced(stored: seq<Step>, gen: seq<Step>, envSteps: seq<WorkflowStep>): seq<WorkflowStep> {
    Brought(Front(AddedOf(stored, gen), gen), StepMap(envSteps)) + Brought(Back(AddedOf(stored, gen), gen), StepMap(envSteps))
  }

  ghost function WrittenStored(stored: seq<Step>, gen: seq<Step>, workflow: seq<WorkflowStep>): seq<WorkflowStep> {
    Retained(GoneOf(stored, gen), stored, stored, StepMap(workflow))
  }

  lemma PlacedAlike(stored: seq<Step>, gen: seq<Step>, envSteps: seq<WorkflowStep>, objs: map<string, Policy>)
    requires OneStepPerName(envSteps) && Built(gen, envSteps, objs)
    ensures Alike(WrittenPlaced(stored, gen, envSteps), WrittenPlaced(stored, gen, envSteps))
  {
    var added := AddedOf(stored, gen);
    var front, back := Front(added, gen), Back(added, gen);
    BroughtAreWanted(added, gen);
    forall s | s in front || s in back
      ensures exists w :: w in envSteps && w.name == s.name
    {
      assert s in front + back;
      var w := BuiltFollows(gen, envSteps, objs, s);
    }
    OnePerNameIff(envSteps);
    forall x | x in WrittenPlaced(stored, gen, envSteps)
      ensures x in envSteps
    {
      if x in Brought(front, StepMap(envSteps)) {
        BroughtFrom(front, envSteps, x);
      } else {
        BroughtFrom(back, envSteps, x);
      }
    }
  }

  /** An update keeps steps of one name alike exactly when no step it places has the name of an
      unlike stored step it writes again. */
  lemma StaysOnePerNameIff(stored: seq<Step>, gen: seq<Step>, workflow: seq<WorkflowStep>, envSteps: seq<WorkflowStep>,
                           oldObjs: map<string, Policy>, newObjs: map<string, Policy>)
    requires Built(stored, workflow, oldObjs) && Built(gen, envSteps, newObjs)
    requires OneStepPerName(workflow) && OneStepPerName(envSteps)
    ensures OneStepPerName(NewWorkflow(stored, gen, workflow, envSteps)) <==>
            Alike(WrittenPlaced(stored, gen, envSteps), WrittenStored(stored, gen, workflow))
  {
    RetainedAlike(GoneOf(stored, gen), stored, workflow, oldObjs);
    PlacedAlike(stored, gen, envSteps, newObjs);
    OnePerNameIff(NewWorkflow(stored, gen, workflow, envSteps));
    var placed, kept, all := WrittenPlaced(stored, gen, envSteps), WrittenStored(stored, gen, workflow), NewWorkflow(stored, gen, workflow, envSteps);
    assert forall x :: x in all <==> x in placed || x in kept;
  }
}
