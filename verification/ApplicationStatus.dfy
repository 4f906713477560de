/** The status of applications in their environments: read for many applications at once, and
    summarised into one health. */
module ApplicationStatus {
  import opened Options

  // ---------------------------------------------------------------- what is stored and deployed

  datatype Env = Env(namespace: string, project: string)

  datatype Binding = Binding(app: string, env: string, deployName: string)

  datatype App = App(key: string, project: string)

  datatype Phase = WorkflowFailed | WorkflowTerminated | WorkflowSuspending | UnhealthyPhase | Running | OtherPhase(name: string)

  datatype Status = Status(phase: Phase, workflow: string, services: seq<bool>)

  datatype Response = Response(env: string, status: Status)

  /** One look at the stores: environments, bindings in their stored order, the deployed
      applications (None where the status cannot be decoded), the namespaces that cannot be listed
      and the applications that cannot be read. */
  datatype Snapshot = Snapshot(
    envs: map<string, Env>, bindings: seq<Binding>,
    deployed: map<(string, string), Option<Status>>,
    unlistable: set<string>, unreadable: set<(string, string)>)

  datatype Read = Found(status: Status) | NotFound | Failed

  function ReadOne(snap: Snapshot, namespace: string, name: string): Read {
    if (namespace, name) in snap.unreadable then Failed
    else if (namespace, name) !in snap.deployed then NotFound
    else match snap.deployed[(namespace, name)]
      case None => Failed
      case Some(s) => Found(s)
  }

  // ---------------------------------------------------------------- one application

  datatype Result = Ok(responses: seq<Response>) | Error

  /** The bindings an application's own reading follows: those to environments of its project. */
  predicate Followed(snap: Snapshot, app: App, b: Binding) {
    && b.app == app.key && b.env in snap.envs
    && (app.project == "" || snap.envs[b.env].project == app.project)
  }

  function FromAllEnvs(snap: Snapshot, app: App, bindings: seq<Binding>): Result {
    if bindings == [] then Ok([])
    else
      var before, b := FromAllEnvs(snap, app, bindings[..|bindings| - 1]), bindings[|bindings| - 1];
      if before.Error? then Error
      else if !Followed(snap, app, b) then before
      else match ReadOne(snap, snap.envs[b.env].namespace, b.deployName)
        case Found(s) => Ok(before.responses + [Response(b.env, s)])
        case NotFound => before
        case Failed => Error
  }

  method GetApplicationStatusFromAllEnvs(snap: Snapshot, app: App) returns (r: Result)
    ensures r == FromAllEnvs(snap, app, snap.bindings)
  {
    var res: seq<Response> := [];
    for i := 0 to |snap.bindings|
      invariant FromAllEnvs(snap, app, snap.bindings[..i]) == Ok(res)
    {
      assert snap.bindings[..i + 1][..i] == snap.bindings[..i];
      var b := snap.bindings[i];
      if Followed(snap, app, b) {
        var one := ReadOne(snap, snap.envs[b.env].namespace, b.deployName);
        match one {
          case Found(s) => res := res + [Response(b.env, s)];
          case NotFound =>
          case Failed =>
            ErrorStays(snap, app, i + 1);
            return Error;
        }
      }
    }
    assert snap.bindings[..|snap.bindings|] == snap.bindings;
    return Ok(res);
  }

  lemma {:induction false} ErrorStays(snap: Snapshot, app: App, i: nat)
    requires i <= |snap.bindings| && FromAllEnvs(snap, app, snap.bindings[..i]).Error?
    ensures FromAllEnvs(snap, app, snap.bindings).Error?
    decreases |snap.bindings| - i
  {
    if i < |snap.bindings| {
      assert snap.bindings[..i + 1][..i] == snap.bindings[..i];
      ErrorStays(snap, app, i + 1);
    } else {
      assert snap.bindings[..i] == snap.bindings;
    }
  }

  /** The binding, to an environment of the project, is deployed with this status. */
  predicate Reports(snap: Snapshot, app: App, b: Binding, x: Response) {
    && b.app == app.key && b.env == x.env && b.env in snap.envs
    && (app.project == "" || app.project == snap.envs[b.env].project)
    && (snap.envs[b.env].namespace, b.deployName) in snap.deployed
    && snap.deployed[(snap.envs[b.env].namespace, b.deployName)] == Some(x.status)
  }

  lemma ReportsOne(snap: Snapshot, app: App, b: Binding, x: Response)
    requires Followed(snap, app, b) ==> !ReadOne(snap, snap.envs[b.env].namespace, b.deployName).Failed?
    ensures Reports(snap, app, b, x) <==>
            && Followed(snap, app, b) && b.env == x.env
            && ReadOne(snap, snap.envs[b.env].namespace, b.deployName) == Found(x.status)
  {
  }

  /** Reading one by one fails exactly when some binding to an environment of the project leads to an
      application that cannot be read, or to one whose status cannot be decoded. */
  lemma {:induction false} ReadingFailsIff(snap: Snapshot, app: App, bindings: seq<Binding>)
    ensures FromAllEnvs(snap, app, bindings).Error? <==>
            exists b :: b in bindings && Breaks(snap, app, b)
  {
    if bindings != [] {
      var init, b := bindings[..|bindings| - 1], bindings[|bindings| - 1];
      assert bindings == init + [b];
      ReadingFailsIff(snap, app, init);
      BreaksIff(snap, app, b);
      hide Breaks, Followed, ReadOne;
    }
  }

  predicate Breaks(snap: Snapshot, app: App, b: Binding) {
    && b.app == app.key && b.env in snap.envs && (app.project == "" || app.project == snap.envs[b.env].project)
    && var at := (snap.envs[b.env].namespace, b.deployName);
       at in snap.unreadable || (at in snap.deployed && snap.deployed[at].None?)
  }

  lemma BreaksIff(snap: Snapshot, app: App, b: Binding)
    ensures Breaks(snap, app, b) <==>
            Followed(snap, app, b) && ReadOne(snap, snap.envs[b.env].namespace, b.deployName).Failed?
  {
  }

  /** What reading one by one reports: the statuses of the deployed applications, for the bindings to
      environments of the project. */
  lemma {:induction false} ReportedIff(snap: Snapshot, app: App, bindings: seq<Binding>, x: Response)
    requires FromAllEnvs(snap, app, bindings).Ok?
    ensures x in FromAllEnvs(snap, app, bindings).responses <==> exists b :: b in bindings && Reports(snap, app, b, x)
  {
    if bindings != [] {
      var init, b := bindings[..|bindings| - 1], bindings[|bindings| - 1];
      assert bindings == init + [b];
      ReportedIff(snap, app, init, x);
      ReportsOne(snap, app, b, x);
      hide Reports, Followed, ReadOne;
    }
  }

  // ---------------------------------------------------------------- all applications at once

  /** What the joint reading makes of one deployed application: from its namespace's listing when
      there is one, else read by itself. */
  function ReadListed(snap: Snapshot, namespace: string, name: string): Option<Status> {
    if namespace !in snap.unlistable then
      if (namespace, name) in snap.deployed then snap.deployed[(namespace, name)] else None
    else match ReadOne(snap, namespace, name)
      case Found(s) => Some(s)
      case _ => None
  }

  function Batch(snap: Snapshot, key: string, bindings: seq<Binding>): seq<Response> {
    if bindings == [] then []
    else
      var before, b := Batch(snap, key, bindings[..|bindings| - 1]), bindings[|bindings| - 1];
      if b.app != key || b.env !in snap.envs then before
      else
        var s := ReadListed(snap, snap.envs[b.env].namespace, b.deployName);
        if s.Some? then before + [Response(b.env, s.value)] else before
  }

  datatype Deployed = Deployed(app: string, env: string, name: string)

  function Bound(snap: Snapshot, wanted: set<string>, bindings: seq<Binding>): seq<Deployed> {
    if bindings == [] then []
    else
      var before, b := Bound(snap, wanted, bindings[..|bindings| - 1]), bindings[|bindings| - 1];
      if b.app in wanted && b.env in snap.envs then before + [Deployed(b.app, b.env, b.deployName)] else before
  }

  method CollectBound(snap: Snapshot, wanted: set<string>) returns (bound: seq<Deployed>, namespaces: set<string>)
    ensures bound == Bound(snap, wanted, snap.bindings)
    ensures forall d :: d in bound ==> d.env in snap.envs && d.app in wanted && snap.envs[d.env].namespace in namespaces
  {
    bound, namespaces := [], {};
    for i := 0 to |snap.bindings|
      invariant bound == Bound(snap, wanted, snap.bindings[..i])
      invariant forall d :: d in bound ==> d.env in snap.envs && d.app in wanted && snap.envs[d.env].namespace in namespaces
    {
      assert snap.bindings[..i + 1][..i] == snap.bindings[..i];
      var b := snap.bindings[i];
      if b.app in wanted && b.env in snap.envs {
        bound := bound + [Deployed(b.app, b.env, b.deployName)];
        namespaces := namespaces + {snap.envs[b.env].namespace};
      }
    }
    assert snap.bindings[..|snap.bindings|] == snap.bindings;
  }

  /** The listing of each listable namespace, by name. */
  method ListNamespaces(snap: Snapshot, namespaces: set<string>) returns (listed: map<string, map<string, Option<Status>>>)
    ensures listed.Keys == namespaces - snap.unlistable
    ensures forall ns, name :: ns in listed ==>
              (name in listed[ns] <==> (ns, name) in snap.deployed) &&
              (name in listed[ns] ==> listed[ns][name] == snap.deployed[(ns, name)])
  {
    listed := map[];
    var rest := namespaces;
    while rest != {}
      invariant rest <= namespaces
      invariant listed.Keys == namespaces - rest - snap.unlistable
      invariant forall ns, name :: ns in listed ==>
                  (name in listed[ns] <==> (ns, name) in snap.deployed) &&
                  (name in listed[ns] ==> listed[ns][name] == snap.deployed[(ns, name)])
      decreases rest
    {
      var ns :| ns in rest;
      rest := rest - {ns};
      if ns !in snap.unlistable {
        var names := set at | at in snap.deployed && at.0 == ns :: at.1;
        var byName := map name | name in names :: snap.deployed[(ns, name)];
        assert forall name :: name in names <==> (ns, name) in snap.deployed by {
          assert forall name :: (ns, name) in snap.deployed ==> (ns, name).0 == ns && (ns, name).1 == name;
        }
        listed := listed[ns := byName];
      }
    }
  }

  function At(out: map<string, seq<Response>>, key: string): seq<Response> {
    if key in out then out[key] else []
  }

  function BatchBound(snap: Snapshot, key: string, bound: seq<Deployed>): seq<Response>
    requires forall d :: d in bound ==> d.env in snap.envs
  {
    if bound == [] then []
    else
      var before, d := BatchBound(snap, key, bound[..|bound| - 1]), bound[|bound| - 1];
      if d.app != key then before
      else
        var s := ReadListed(snap, snap.envs[d.env].namespace, d.name);
        if s.Some? then before + [Response(d.env, s.value)] else before
  }

  lemma {:induction false} BoundIsBatch(snap: Snapshot, wanted: set<string>, key: string, bindings: seq<Binding>)
    requires key in wanted
    ensures forall d :: d in Bound(snap, wanted, bindings) ==> d.env in snap.envs
    ensures BatchBound(snap, key, Bound(snap, wanted, bindings)) == Batch(snap, key, bindings)
  {
    if bindings != [] {
      BoundIsBatch(snap, wanted, key, bindings[..|bindings| - 1]);
      var before, b := Bound(snap, wanted, bindings[..|bindings| - 1]), bindings[|bindings| - 1];
      var d := Deployed(b.app, b.env, b.deployName);
      assert (before + [d])[..|before|] == before;
    }
  }

  method StatusesOfApps(snap: Snapshot, apps: seq<App>) returns (out: map<string, seq<Response>>)
    ensures forall app :: app in apps ==> At(out, app.key) == Batch(snap, app.key, snap.bindings)
    ensures forall key :: key in out ==> exists app :: app in apps && app.key == key
  {
    var wanted := set app | app in apps :: app.key;
    var bound, namespaces := CollectBound(snap, wanted);
    var listed := ListNamespaces(snap, namespaces);
    out := map[];
    for i := 0 to |bound|
      invariant forall key :: At(out, key) == BatchBound(snap, key, bound[..i])
      invariant forall key :: key in out ==> key in wanted
    {
      assert bound[..i + 1][..i] == bound[..i];
      var d := bound[i];
      var ns := snap.envs[d.env].namespace;
      var status: Option<Status> := None;
      if ns in listed {
        if d.name in listed[ns] {
          status := listed[ns][d.name];
        }
      } else {
        var one := ReadOne(snap, ns, d.name);
        if one.Found? {
          status := Some(one.status);
        }
      }
      assert status == ReadListed(snap, ns, d.name);
      if status.Some? {
        out := out[d.app := At(out, d.app) + [Response(d.env, status.value)]];
      }
    }
    assert bound[..|bound|] == bound;
    forall app | app in apps
      ensures At(out, app.key) == Batch(snap, app.key, snap.bindings)
    {
      BoundIsBatch(snap, wanted, app.key, snap.bindings);
    }
  }

  /** What reading all at once reports: the statuses that a listing or a reading gives. */
  lemma {:induction false} BatchReportedIff(snap: Snapshot, key: string, bindings: seq<Binding>, x: Response)
    ensures x in Batch(snap, key, bindings) <==>
            exists b :: b in bindings && b.app == key && b.env == x.env && b.env in snap.envs
              && (snap.envs[b.env].namespace, b.deployName) in snap.deployed
              && snap.deployed[(snap.envs[b.env].namespace, b.deployName)] == Some(x.status)
              && (snap.envs[b.env].namespace in snap.unlistable ==> (snap.envs[b.env].namespace, b.deployName) !in snap.unreadable)
  {
    if bindings != [] {
      var init, b := bindings[..|bindings| - 1], bindings[|bindings| - 1];
      assert bindings == init + [b];
      BatchReportedIff(snap, key, init, x);
    }
  }

  // ---------------------------------------------------------------- agreement

  /** A binding to an environment of another project, which only the joint reading follows. */
  predicate Foreign(snap: Snapshot, app: App, b: Binding) {
    && b.app == app.key && b.env in snap.envs && !Followed(snap, app, b)
    && ReadListed(snap, snap.envs[b.env].namespace, b.deployName).Some?
  }

  /** The application's own reading succeeds exactly when no followed binding fails to read. */
  lemma {:induction false} FromAllEnvsOkIff(snap: Snapshot, app: App, bindings: seq<Binding>)
    ensures FromAllEnvs(snap, app, bindings).Ok? <==>
            forall b :: b in bindings && Followed(snap, app, b) ==>
              !ReadOne(snap, snap.envs[b.env].namespace, b.deployName).Failed?
  {
    if bindings != [] {
      FromAllEnvsOkIff(snap, app, bindings[..|bindings| - 1]);
      assert bindings == bindings[..|bindings| - 1] + [bindings[|bindings| - 1]];
    }
  }

  lemma ReadAlike(snap: Snapshot, namespace: string, name: string)
    requires !ReadOne(snap, namespace, name).Failed?
    ensures ReadListed(snap, namespace, name) ==
            match ReadOne(snap, namespace, name)
            case Found(s) => Some(s)
            case _ => None
  {
  }

  ghost function ForeignCount(snap: Snapshot, app: App, bindings: seq<Binding>): nat {
    if bindings == [] then 0
    else ForeignCount(snap, app, bindings[..|bindings| - 1]) + if Foreign(snap, app, bindings[|bindings| - 1]) then 1 else 0
  }

  lemma {:induction false} NoForeign(snap: Snapshot, app: App, bindings: seq<Binding>)
    ensures ForeignCount(snap, app, bindings) == 0 <==> forall b :: b in bindings ==> !Foreign(snap, app, b)
  {
    if bindings != [] {
      NoForeign(snap, app, bindings[..|bindings| - 1]);
      assert bindings == bindings[..|bindings| - 1] + [bindings[|bindings| - 1]];
    }
  }

  lemma {:induction false} BatchLength(snap: Snapshot, app: App, bindings: seq<Binding>)
    requires FromAllEnvs(snap, app, bindings).Ok?
    ensures
      var own, joint, foreign :=
        FromAllEnvs(snap, app, bindings).responses, Batch(snap, app.key, bindings), ForeignCount(snap, app, bindings);
      |own| + foreign == |joint| && (foreign == 0 ==> own == joint)
  {
    if bindings != [] {
      var b := bindings[|bindings| - 1];
      BatchLength(snap, app, bindings[..|bindings| - 1]);
      if Followed(snap, app, b) {
        ReadAlike(snap, snap.envs[b.env].namespace, b.deployName);
      }
    }
  }

  /** For any set of namespaces that cannot be listed, the joint reading gives an application what
      reading it binding by binding gives, exactly when none of its own readings fails and it is
      not deployed to an environment of another project. */
  lemma BatchAgreesIff(snap: Snapshot, app: App)
    ensures FromAllEnvs(snap, app, snap.bindings) == Ok(Batch(snap, app.key, snap.bindings)) <==>
            && (forall b :: b in snap.bindings && Followed(snap, app, b) ==>
                  !ReadOne(snap, snap.envs[b.env].namespace, b.deployName).Failed?)
            && (forall b :: b in snap.bindings ==> !Foreign(snap, app, b))
  {
    FromAllEnvsOkIff(snap, app, snap.bindings);
    if FromAllEnvs(snap, app, snap.bindings).Ok? {
      BatchLength(snap, app, snap.bindings);
      NoForeign(snap, app, snap.bindings);
    }
  }

  /** An application bound to an environment of another project: only the joint reading reports it. */
  lemma ForeignEnvironmentReported() returns (snap: Snapshot, app: App)
    ensures FromAllEnvs(snap, app, snap.bindings) == Ok([])
    ensures |Batch(snap, app.key, snap.bindings)| == 1
  {
    var b := Binding("shop", "dev", "shop");
    app := App("shop", "sales");
    snap := Snapshot(map["dev" := Env("dev-ns", "other")], [b], map[("dev-ns", "shop") := Some(Status(Running, "", []))], {}, {});
    assert [b][..0] == [];
  }

  // ---------------------------------------------------------------- the summary

  datatype Health = Undeployed | Healthy | Progressing | Suspended | Unhealthy | FailedHealth

  function Rank(h: Health): nat {
    match h
    case Undeployed => 0
    case Healthy => 1
    case Progressing => 2
    case Suspended => 3
    case Unhealthy => 4
    case FailedHealth => 5
  }

  function HealthyCount(services: seq<bool>): (n: nat)
    ensures n <= |services| && n == multiset(services)[true]
  {
    assert services != [] ==> services == services[..|services| - 1] + [services[|services| - 1]];
    if services == [] then 0
    else HealthyCount(services[..|services| - 1]) + if services[|services| - 1] then 1 else 0
  }

  lemma {:induction false} AllHealthyIff(services: seq<bool>)
    ensures HealthyCount(services) == |services| <==> false !in services
  {
    if services != [] {
      AllHealthyIff(services[..|services| - 1]);
      assert services == services[..|services| - 1] + [services[|services| - 1]];
    }
  }

  /** The healths from best to worst. */
  lemma RankOrder()
    ensures Rank(Undeployed) < Rank(Healthy) < Rank(Progressing) < Rank(Suspended) < Rank(Unhealthy) < Rank(FailedHealth)
  {
  }

  datatype EnvSummary = EnvSummary(env: string, health: Health, components: nat, healthyComponents: nat, workflow: string)

  function HealthOf(s: Status): Health {
    match s.phase
    case WorkflowFailed => FailedHealth
    case WorkflowTerminated => FailedHealth
    case WorkflowSuspending => Suspended
    case UnhealthyPhase => Unhealthy
    case Running => if HealthyCount(s.services) < |s.services| then Unhealthy else Healthy
    case OtherPhase(_) => Progressing
  }

  function Summarised(r: Response): EnvSummary {
    EnvSummary(r.env, HealthOf(r.status), |r.status.services|, HealthyCount(r.status.services), r.status.workflow)
  }

  method SummariseEnv(r: Response) returns (e: EnvSummary)
    ensures e == Summarised(r)
    ensures e.env == r.env && e.workflow == r.status.workflow
    ensures e.components == |r.status.services| && e.healthyComponents == multiset(r.status.services)[true]
    ensures r.status.phase == WorkflowFailed || r.status.phase == WorkflowTerminated <==> e.health == FailedHealth
    ensures r.status.phase == WorkflowSuspending <==> e.health == Suspended
    ensures r.status.phase == UnhealthyPhase || (r.status.phase == Running && false in r.status.services) <==> e.health == Unhealthy
    ensures r.status.phase == Running && false !in r.status.services <==> e.health == Healthy
    ensures r.status.phase.OtherPhase? <==> e.health == Progressing
  {
    var components, healthy := 0, 0;
    var services := r.status.services;
    for i := 0 to |services|
      invariant components == i && healthy == HealthyCount(services[..i])
    {
      assert services[..i + 1][..i] == services[..i];
      components := components + 1;
      if services[i] {
        healthy := healthy + 1;
      }
    }
    assert services[..|services|] == services;
    var health;
    match r.status.phase {
      case WorkflowFailed => health := FailedHealth;
      case WorkflowTerminated => health := FailedHealth;
      case WorkflowSuspending => health := Suspended;
      case UnhealthyPhase => health := Unhealthy;
      case Running =>
        health := Healthy;
        if healthy < components {
          health := Unhealthy;
        }
      case OtherPhase(_) => health := Progressing;
    }
    e := EnvSummary(r.env, health, components, healthy, r.status.workflow);
    AllHealthyIff(services);
  }

  datatype Summary = Summary(health: Health, components: nat, healthyComponents: nat, workflow: string, envs: seq<EnvSummary>)

  ghost function Counted(r: Response, healthyOnly: bool): nat {
    if healthyOnly then HealthyCount(r.status.services) else |r.status.services|
  }

  ghost function Total(rs: seq<Response>, healthyOnly: bool): nat {
    if rs == [] then 0 else Total(rs[..|rs| - 1], healthyOnly) + Counted(rs[|rs| - 1], healthyOnly)
  }

  /** One more environment: its health and workflow count when it is worse than all before. */
  function Extended(s: Summary, e: EnvSummary): Summary {
    var worse := Rank(e.health) > Rank(s.health);
    Summary(if worse then e.health else s.health, s.components + e.components, s.healthyComponents + e.healthyComponents,
            if worse then e.workflow else s.workflow, s.envs + [e])
  }

  function Folded(rs: seq<Response>): Summary {
    if rs == [] then Summary(Undeployed, 0, 0, "", [])
    else Extended(Folded(rs[..|rs| - 1]), Summarised(rs[|rs| - 1]))
  }

  lemma FoldedLast(rs: seq<Response>, r: Response)
    ensures Folded(rs + [r]) == Extended(Folded(rs), Summarised(r))
  {
    assert (rs + [r])[..|rs|] == rs;
  }

  /** One more environment adds its components and, if it is worse than all before, its health and
      workflow phase. */
  lemma SummaryAdds(rs: seq<Response>, r: Response)
    ensures Folded(rs + [r]).components == Folded(rs).components + |r.status.services|
    ensures Folded(rs + [r]).healthyComponents == Folded(rs).healthyComponents + multiset(r.status.services)[true]
    ensures Rank(HealthOf(r.status)) > Rank(Folded(rs).health) ==>
              Folded(rs + [r]).health == HealthOf(r.status) && Folded(rs + [r]).workflow == r.status.workflow
    ensures Rank(HealthOf(r.status)) <= Rank(Folded(rs).health) ==>
              Folded(rs + [r]).health == Folded(rs).health && Folded(rs + [r]).workflow == Folded(rs).workflow
  {
    FoldedLast(rs, r);
  }

  lemma PresentLast(entries: seq<Option<Response>>, i: nat)
    requires i < |entries|
    ensures Present(entries[..i + 1]) == if entries[i].Some? then Present(entries[..i]) + [entries[i].value] else Present(entries[..i])
  {
    assert entries[..i + 1][..i] == entries[..i];
  }

  /** The entries that have a status. */
  function Present(entries: seq<Option<Response>>): seq<Response> {
    if entries == [] then []
    else
      var last := entries[|entries| - 1];
      Present(entries[..|entries| - 1]) + if last.Some? then [last.value] else []
  }

  lemma NothingPresent()
    ensures Folded([]) == Summary(Undeployed, 0, 0, "", []) && Present([]) == []
  {
  }

  method SummariseAppStatus(entries: seq<Option<Response>>) returns (s: Summary)
    ensures s == Folded(Present(entries))
  {
    NothingPresent();
    hide HealthOf, HealthyCount, Folded, Present, Summarised;
    s := Summary(Undeployed, 0, 0, "", []);
    var worst := 0;
    for i := 0 to |entries|
      invariant worst == Rank(s.health) && s == Folded(Present(entries[..i]))
    {
      PresentLast(entries, i);
      if entries[i].None? {
        continue;
      }
      FoldedLast(Present(entries[..i]), entries[i].value);
      var e := SummariseEnv(entries[i].value);
      s := s.(envs := s.envs + [e], components := s.components + e.components,
              healthyComponents := s.healthyComponents + e.healthyComponents);
      if Rank(e.health) > worst {
        worst := Rank(e.health);
        s := s.(health := e.health, workflow := e.workflow);
      }
    }
    assert entries[..|entries|] == entries;
  }

  function RankOf(r: Response): nat {
    Rank(HealthOf(r.status))
  }

  /** The first environment with the worst health: its workflow is the one shown. */
  ghost predicate FirstWorst(rs: seq<Response>, i: nat) {
    && i < |rs|
    && (forall j :: 0 <= j < i ==> RankOf(rs[j]) < RankOf(rs[i]))
    && (forall j :: i <= j < |rs| ==> RankOf(rs[j]) <= RankOf(rs[i]))
  }

  lemma {:induction false} SummaryTotals(rs: seq<Response>)
    ensures Folded(rs).components == Total(rs, false) && Folded(rs).healthyComponents == Total(rs, true)
    ensures rs == [] ==> Folded(rs).health == Undeployed
    ensures |Folded(rs).envs| == |rs| && forall i :: 0 <= i < |rs| ==> Folded(rs).envs[i] == Summarised(rs[i])
  {
    if rs != [] {
      SummaryTotals(rs[..|rs| - 1]);
    }
  }

  lemma FirstWorstLast(rs: seq<Response>, at: nat, r: Response)
    requires FirstWorst(rs, at)
    ensures FirstWorst(rs + [r], if RankOf(r) > RankOf(rs[at]) then |rs| else at)
  {
    var more := rs + [r];
    assert forall j :: 0 <= j < |rs| ==> more[j] == rs[j];
  }

  /** The summary shows the worst health, and the workflow of the first environment that has it. */
  lemma {:induction false} SummaryIsWorst(rs: seq<Response>) returns (at: nat)
    requires rs != []
    ensures FirstWorst(rs, at)
    ensures Folded(rs).health == HealthOf(rs[at].status) && Folded(rs).workflow == rs[at].status.workflow
  {
    var init, r := rs[..|rs| - 1], rs[|rs| - 1];
    assert rs == init + [r];
    FoldedLast(init, r);
    if init == [] {
      at := 0;
    } else {
      at := SummaryIsWorst(init);
      FirstWorstLast(init, at, r);
      if RankOf(r) > RankOf(init[at]) {
        at := |init|;
      }
    }
  }

  lemma {:induction false} TotalWithout(rs: seq<Response>, i: nat, healthyOnly: bool)
    requires i < |rs|
    ensures Total(rs, healthyOnly) == Total(rs[..i] + rs[i + 1..], healthyOnly) + Counted(rs[i], healthyOnly)
  {
    var n := |rs| - 1;
    if i == n {
      assert rs[..i] + rs[i + 1..] == rs[..n];
    } else {
      TotalWithout(rs[..n], i, healthyOnly);
      var w := rs[..i] + rs[i + 1..];
      assert w[..|w| - 1] == rs[..n][..i] + rs[..n][i + 1..];
      assert w[|w| - 1] == rs[n] && rs[..n][i] == rs[i];
    }
  }

  lemma WithoutOne(rs: seq<Response>, i: nat)
    requires i < |rs|
    ensures multiset(rs[..i] + rs[i + 1..]) == multiset(rs) - multiset{rs[i]}
  {
    assert rs == rs[..i] + [rs[i]] + rs[i + 1..];
  }

  lemma Located(a: seq<Response>, b: seq<Response>, n: nat) returns (i: nat)
    requires multiset(a) == multiset(b) && n < |a|
    ensures i < |b| && b[i] == a[n]
    ensures multiset(a[..n] + a[n + 1..]) == multiset(b[..i] + b[i + 1..])
  {
    assert a[n] in multiset(b);
    i :| 0 <= i < |b| && b[i] == a[n];
    WithoutOne(a, n);
    WithoutOne(b, i);
  }

  lemma {:induction false} TotalsIgnoreOrder(a: seq<Response>, b: seq<Response>, healthyOnly: bool)
    requires multiset(a) == multiset(b)
    ensures Total(a, healthyOnly) == Total(b, healthyOnly)
    decreases |a|
  {
    if a == [] {
      assert |multiset(b)| == |b| == 0;
    } else {
      var i := Located(a, b, 0);
      TotalsIgnoreOrder(a[..0] + a[1..], b[..i] + b[i + 1..], healthyOnly);
      TotalWithout(a, 0, healthyOnly);
      TotalWithout(b, i, healthyOnly);
    }
  }

  lemma WorstRank(a: seq<Response>, b: seq<Response>, i: nat, j: nat)
    requires multiset(a) == multiset(b) && FirstWorst(a, i) && FirstWorst(b, j)
    ensures HealthOf(a[i].status) == HealthOf(b[j].status)
  {
    var i' := Located(a, b, i);
    var j' := Located(b, a, j);
    assert RankOf(a[i]) == RankOf(b[i']) <= RankOf(b[j]);
    assert RankOf(b[j]) == RankOf(a[j']) <= RankOf(a[i]);
  }

  /** Health and counts do not depend on the order of the environments. */
  lemma SummaryIgnoresOrder(a: seq<Response>, b: seq<Response>)
    requires multiset(a) == multiset(b)
    ensures Folded(a).health == Folded(b).health
    ensures Folded(a).components == Folded(b).components && Folded(a).healthyComponents == Folded(b).healthyComponents
  {
    TotalsIgnoreOrder(a, b, false);
    TotalsIgnoreOrder(a, b, true);
    SummaryTotals(a);
    SummaryTotals(b);
    assert |multiset(a)| == |a| && |multiset(b)| == |b|;
    if a != [] {
      var i := SummaryIsWorst(a);
      var j := SummaryIsWorst(b);
      WorstRank(a, b, i, j);
    }
  }

  ghost predicate IsWorst(rs: seq<Response>, i: int) {
    0 <= i < |rs| && forall j :: 0 <= j < |rs| ==> RankOf(rs[j]) <= RankOf(rs[i])
  }

  /** All the environments that have the worst health are at the same workflow phase. */
  ghost predicate WorstAgree(rs: seq<Response>) {
    forall i, j :: IsWorst(rs, i) && IsWorst(rs, j) ==> rs[i].status.workflow == rs[j].status.workflow
  }

  /** With an environment of the worst health in front, its workflow phase is shown. */
  lemma FrontIsShown(rs: seq<Response>, i: nat) returns (b: seq<Response>)
    requires IsWorst(rs, i)
    ensures multiset(b) == multiset(rs) && Folded(b).workflow == rs[i].status.workflow
  {
    var rest := rs[..i] + rs[i + 1..];
    b := [rs[i]] + rest;
    WithoutOne(rs, i);
    assert multiset(b) == multiset{rs[i]} + multiset(rest);
    var at := SummaryIsWorst(b);
    assert b[at] in multiset(rs);
    var j :| 0 <= j < |rs| && rs[j] == b[at];
    assert RankOf(rs[j]) <= RankOf(b[0]);
  }

  lemma SameWorkflow(a: seq<Response>, b: seq<Response>)
    requires multiset(a) == multiset(b) && WorstAgree(a)
    ensures Folded(a).workflow == Folded(b).workflow
  {
    assert |multiset(a)| == |a| && |multiset(b)| == |b|;
    if a != [] {
      var i := SummaryIsWorst(a);
      var j := SummaryIsWorst(b);
      WorstRank(a, b, i, j);
      var k := Located(b, a, j);
      assert IsWorst(a, i) && IsWorst(a, k);
    }
  }

  /** The workflow phase shown is the same for every order of the environments exactly when all those
      of the worst health are at the same phase. */
  lemma WorkflowIgnoresOrderIff(a: seq<Response>)
    ensures (forall b :: multiset(b) == multiset(a) ==> Folded(b).workflow == Folded(a).workflow) <==> WorstAgree(a)
  {
    if WorstAgree(a) {
      forall b | multiset(b) == multiset(a)
        ensures Folded(b).workflow == Folded(a).workflow
      {
        SameWorkflow(a, b);
      }
    } else {
      var i, j :| IsWorst(a, i) && IsWorst(a, j) && a[i].status.workflow != a[j].status.workflow;
      var b := FrontIsShown(a, i);
      var b' := FrontIsShown(a, j);
      hide Folded, IsWorst;
      assert Folded(b).workflow != Folded(b').workflow;
    }
  }

  /** Two healthy environments at different phases: the one that comes first is shown. */
  lemma WorkflowDependsOnOrder(dev: Response, prod: Response)
    requires HealthOf(dev.status) == HealthOf(prod.status) && dev.status.workflow != prod.status.workflow
    ensures multiset([dev, prod]) == multiset([prod, dev])
    ensures Folded([dev, prod]).workflow == dev.status.workflow && Folded([prod, dev]).workflow == prod.status.workflow
  {
    var i := SummaryIsWorst([dev, prod]);
    var j := SummaryIsWorst([prod, dev]);
    assert i == 0 && j == 0;
  }
}
