/** Environments and the delivery targets they own: within a project a target belongs to one
    environment at most. */
module Environments {
  import opened Options

  datatype Env = Env(project: string, namespace: string, targets: seq<string>, alias: string, description: string)

  type Store = map<string, Env>

  /** A listing by project; without a project it lists every environment. */
  predicate Listed(e: Env, project: string) {
    project == "" || e.project == project
  }

  ghost predicate Share(a: seq<string>, b: seq<string>) {
    exists t :: t in a && t in b
  }

  /** No other listed environment has one of the targets. */
  ghost predicate Free(s: Store, project: string, name: string, targets: seq<string>) {
    forall n :: n in s && n != name && Listed(s[n], project) ==> !Share(s[n].targets, targets)
  }

  method CheckEnvTarget(s: Store, project: string, name: string, targets: seq<string>) returns (pass: bool)
    ensures pass <==> Free(s, project, name, targets)
    ensures pass <==> forall n, t :: n in s && n != name && (project == "" || s[n].project == project) && t in s[n].targets ==> t !in targets
  {
    if |targets| == 0 {
      return true;
    }
    var newTargets := set t | t in targets;
    var rest := set n | n in s && Listed(s[n], project);
    while rest != {}
      invariant rest <= s.Keys
      invariant forall n :: n in rest ==> Listed(s[n], project)
      invariant forall n :: n in s && n !in rest && n != name && Listed(s[n], project) ==> !Share(s[n].targets, targets)
      decreases rest
    {
      var n :| n in rest;
      var exist := s[n].targets;
      for i := 0 to |exist|
        invariant n != name ==> !Share(exist[..i], targets)
      {
        assert exist[..i + 1] == exist[..i] + [exist[i]];
        if exist[i] in newTargets && n != name {
          assert exist[i] in exist && exist[i] in targets;
          return false;
        }
      }
      assert exist[..|exist|] == exist;
      rest := rest - {n};
    }
    return true;
  }

  // ---------------------------------------------------------------- operations

  datatype Outcome =
    | Done | TargetConflict | TargetNotExist | AlreadyExists | NotExisted | NamespaceFailed
    | TargetNotAllowDelete | AppsNotCounted | StoredButNotPrivileged | DeletedButPrivileged

  datatype Op =
    | Create(name: string, env: Env, allowTargetConflict: bool, namespaceReady: bool, privileged: bool)
    | Update(name: string, targets: seq<string>, alias: string, description: string, deployedApps: Option<nat>, privileged: bool)
    | Delete(name: string, namespaceFound: bool, unprivileged: bool)

  function Updated(e: Env, op: Op): Env
    requires op.Update?
  {
    Env(e.project, e.namespace,
        if |op.targets| > 0 then op.targets else e.targets,
        if op.alias != "" then op.alias else e.alias,
        if op.description != "" then op.description else e.description)
  }

  predicate Distinct(ts: seq<string>) {
    forall i, j :: 0 <= i < j < |ts| ==> ts[i] != ts[j]
  }

  ghost predicate AllKnown(known: set<string>, targets: seq<string>) {
    forall t :: t in targets ==> t in known
  }

  ghost predicate Drops(before: seq<string>, targets: seq<string>) {
    exists t :: t in before && t !in targets
  }

  /** What an operation answers, refusals in the order they are looked for. */
  ghost function Answer(known: set<string>, s: Store, op: Op): Outcome {
    match op
    case Create(name, env, allow, ready, privileged) =>
      if !allow && !Free(s, env.project, name, env.targets) then TargetConflict
      else if !AllKnown(known, env.targets) then TargetNotExist
      else if name in s then AlreadyExists
      else if !ready then NamespaceFailed
      else if privileged then Done else StoredButNotPrivileged
    case Update(name, targets, _, _, apps, privileged) =>
      if name !in s then NotExisted
      else if !Free(s, s[name].project, name, targets) then TargetConflict
      else if |targets| > 0 && Drops(s[name].targets, targets) && apps.None? then AppsNotCounted
      else if |targets| > 0 && Drops(s[name].targets, targets) && apps.value > 0 then TargetNotAllowDelete
      else if |targets| > 0 && !(Distinct(targets) && AllKnown(known, targets)) then TargetNotExist
      else if privileged then Done else StoredButNotPrivileged
    case Delete(name, found, unprivileged) =>
      if name !in s then Done
      else if !found then NamespaceFailed
      else if unprivileged then Done else DeletedButPrivileged
  }

  /** An operation's answer and the store it leaves, with the targets that exist. */
  ghost predicate Step(known: set<string>, s: Store, op: Op, r: Outcome, s': Store) {
    && r == Answer(known, s, op)
    && s' == if !r.Done? && !r.StoredButNotPrivileged? && !r.DeletedButPrivileged? then s
             else match op
               case Create(name, env, _, _, _) => s[name := env]
               case Update(name, _, _, _, _, _) => if name in s then s[name := Updated(s[name], op)] else s
               case Delete(name, _, _) => s - {name}
  }

  class EnvService {
    var store: Store
    const known: set<string>

    constructor (known: set<string>)
      ensures store == map[] && this.known == known
    {
      store, this.known := map[], known;
    }

    method CreateEnv(name: string, env: Env, allowTargetConflict: bool, namespaceReady: bool, privileged: bool)
      returns (r: Outcome)
      modifies this
      ensures Step(known, old(store), Create(name, env, allowTargetConflict, namespaceReady, privileged), r, store)
      ensures r == TargetConflict <==> !allowTargetConflict && !Free(old(store), env.project, name, env.targets)
      ensures r.Done? || r.StoredButNotPrivileged? ==>
                && name !in old(store) && namespaceReady && (forall t :: t in env.targets ==> t in known)
                && store == old(store)[name := env] && r.Done? == privileged
      ensures r == TargetNotExist ==> exists t :: t in env.targets && t !in known
      ensures r == AlreadyExists ==> name in old(store) && forall t :: t in env.targets ==> t in known
      ensures r == NamespaceFailed ==> name !in old(store) && !namespaceReady
      ensures !r.Done? && !r.StoredButNotPrivileged? ==> store == old(store)
    {
      if !allowTargetConflict {
        var pass := CheckEnvTarget(store, env.project, name, env.targets);
        if !pass {
          return TargetConflict;
        }
      }
      for i := 0 to |env.targets|
        invariant AllKnown(known, env.targets[..i])
      {
        if env.targets[i] !in known {
          return TargetNotExist;
        }
      }
      assert env.targets[..|env.targets|] == env.targets;
      if name in store {
        return AlreadyExists;
      }
      if !namespaceReady {
        return NamespaceFailed;
      }
      store := store[name := env];
      return if privileged then Done else StoredButNotPrivileged;
    }

    method UpdateEnv(name: string, targets: seq<string>, alias: string, description: string, deployedApps: Option<nat>, privileged: bool)
      returns (r: Outcome)
      modifies this
      ensures Step(known, old(store), Update(name, targets, alias, description, deployedApps, privileged), r, store)
      ensures r == NotExisted <==> name !in old(store)
      ensures r == TargetNotAllowDelete || r == AppsNotCounted ==>
                && targets != [] && (exists t :: t in old(store)[name].targets && t !in targets)
                && deployedApps != Some(0) && (r == AppsNotCounted <==> deployedApps.None?)
      ensures r == TargetNotExist ==> targets != [] && (!Distinct(targets) || exists t :: t in targets && t !in known)
      ensures r == TargetConflict <==> name in old(store) && !Free(old(store), old(store)[name].project, name, targets)
      ensures r.Done? || r.StoredButNotPrivileged? ==>
                && name in old(store) && store.Keys == old(store).Keys && r.Done? == privileged
                && (forall n :: n in store && n != name ==> store[n] == old(store)[n])
                && store[name].targets == (if targets == [] then old(store)[name].targets else targets)
                && store[name].alias == (if alias == "" then old(store)[name].alias else alias)
                && store[name].description == (if description == "" then old(store)[name].description else description)
                && store[name].project == old(store)[name].project && store[name].namespace == old(store)[name].namespace
      ensures r.Done? || r.StoredButNotPrivileged? ==>
                && (forall t :: t in targets ==> t in known)
                && (targets != [] && deployedApps != Some(0) ==> forall t :: t in old(store)[name].targets ==> t in targets)
      ensures !r.Done? && !r.StoredButNotPrivileged? ==> store == old(store)
    {
      if name !in store {
        return NotExisted;
      }
      var env := store[name];
      if alias != "" {
        env := env.(alias := alias);
      }
      if description != "" {
        env := env.(description := description);
      }
      var pass := CheckEnvTarget(store, env.project, name, targets);
      if !pass {
        return TargetConflict;
      }
      if |targets| > 0 {
        var dropped := set t | t in env.targets && t !in targets;
        assert Drops(env.targets, targets) <==> dropped != {} by {
          assert forall t :: t in dropped <==> t in env.targets && t !in targets;
        }
        if dropped != {} {
          if deployedApps.None? {
            return AppsNotCounted;
          }
          if deployedApps.value > 0 {
            return TargetNotAllowDelete;
          }
        }
        var found := CountListed(targets, known);
        if found != |targets| {
          return TargetNotExist;
        }
        env := env.(targets := targets);
      }
      store := store[name := env];
      return if privileged then Done else StoredButNotPrivileged;
    }

    method DeleteEnv(name: string, namespaceFound: bool, unprivileged: bool) returns (r: Outcome)
      modifies this
      ensures Step(known, old(store), Delete(name, namespaceFound, unprivileged), r, store)
      ensures r == NamespaceFailed <==> name in old(store) && !namespaceFound
      ensures store == if r == NamespaceFailed then old(store) else old(store) - {name}
    {
      if name !in store {
        assert store - {name} == store;
        return Done;
      }
      if !namespaceFound {
        return NamespaceFailed;
      }
      store := store - {name};
      return if unprivileged then Done else DeletedButPrivileged;
    }
  }

  /** How many existing targets are among those asked for. */
  method CountListed(targets: seq<string>, known: set<string>) returns (n: nat)
    ensures n == |targets| <==> Distinct(targets) && AllKnown(known, targets)
  {
    var listed := set t | t in targets && t in known;
    n := |listed|;
    ListedCount(targets, listed);
    assert (forall t :: t in targets ==> t in listed) <==> forall t :: t in targets ==> t in known;
  }

  lemma {:induction false} ListedCount(ts: seq<string>, listed: set<string>)
    requires forall t :: t in listed ==> t in ts
    ensures |listed| <= |ts|
    ensures |listed| == |ts| <==> Distinct(ts) && forall t :: t in ts ==> t in listed
  {
    if ts == [] {
      assert listed == {};
    } else {
      var init, t := ts[..|ts| - 1], ts[|ts| - 1];
      assert ts == init + [t];
      if t in init {
        ListedCount(init, listed);
        var i :| 0 <= i < |init| && init[i] == t;
        assert ts[i] == ts[|ts| - 1];
      } else {
        ListedCount(init, listed - {t});
        assert forall x :: x in init ==> (x in listed <==> x in listed - {t});
        if t in listed {
          assert |listed| == |listed - {t}| + 1;
        } else {
          assert listed - {t} == listed;
        }
      }
    }
  }

  // ---------------------------------------------------------------- runs

  /** Within one project no two environments share a target. */
  ghost predicate Exclusive(s: Store) {
    forall m, n :: m in s && n in s && m != n && s[m].project == s[n].project ==> !Share(s[m].targets, s[n].targets)
  }

  lemma ShareSymmetric(a: seq<string>, b: seq<string>)
    ensures Share(a, b) <==> Share(b, a)
  {
  }

  /** The check is exactly what keeps targets exclusive when an environment of a project is
      stored with new targets. */
  lemma CheckDecides(s: Store, name: string, env: Env)
    requires Exclusive(s - {name}) && env.project != ""
    ensures Exclusive(s[name := env]) <==> Free(s, env.project, name, env.targets)
  {
    var s' := s[name := env];
    forall n | n in s
      ensures Share(s[n].targets, env.targets) <==> Share(env.targets, s[n].targets)
    {
      ShareSymmetric(s[n].targets, env.targets);
    }
    if Exclusive(s') {
      forall n | n in s && n != name && Listed(s[n], env.project)
        ensures !Share(s[n].targets, env.targets)
      {
        assert n in s' && name in s';
      }
    }
    if Free(s, env.project, name, env.targets) {
      forall m, n | m in s' && n in s' && m != n && s'[m].project == s'[n].project
        ensures !Share(s'[m].targets, s'[n].targets)
      {
        if m != name && n != name {
          assert m in s - {name} && n in s - {name};
        }
      }
    }
  }

  lemma FreeKeepsExclusive(s: Store, name: string, env: Env)
    requires Exclusive(s) && Free(s, env.project, name, env.targets)
    ensures Exclusive(s[name := env])
  {
    var s' := s[name := env];
    forall m, n | m in s' && n in s' && m != n && s'[m].project == s'[n].project
      ensures !Share(s'[m].targets, s'[n].targets)
    {
      ShareSymmetric(s'[m].targets, s'[n].targets);
    }
  }

  ghost predicate Run(known: set<string>, states: seq<Store>, ops: seq<Op>, results: seq<Outcome>) {
    && |states| == |ops| + 1 == |results| + 1
    && states[0] == map[]
    && (forall i :: 0 <= i < |ops| ==> Step(known, states[i], ops[i], results[i], states[i + 1]))
    && (forall i :: 0 <= i < |ops| && ops[i].Create? ==> !ops[i].allowTargetConflict)
  }

  /** Over every run without admitted conflicts, targets stay exclusive within each project. */
  lemma {:induction false} RunsStayExclusive(known: set<string>, states: seq<Store>, ops: seq<Op>, results: seq<Outcome>, k: nat)
    requires Run(known, states, ops, results) && k < |states|
    ensures Exclusive(states[k])
  {
    if k > 0 {
      RunsStayExclusive(known, states, ops, results, k - 1);
      var s, op, r := states[k - 1], ops[k - 1], results[k - 1];
      assert Step(known, s, op, r, states[k]);
      match op
      case Create(name, env, _, _, _) =>
        if r.Done? || r.StoredButNotPrivileged? {
          FreeKeepsExclusive(s, name, env);
        }
      case Update(name, targets, _, _, _, _) =>
        if r.Done? || r.StoredButNotPrivileged? {
          if |targets| > 0 {
            FreeKeepsExclusive(s, name, Updated(s[name], op));
          }
        }
      case Delete(name, _, _) =>
    }
  }
}
