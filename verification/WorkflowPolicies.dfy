/** Which stored policies a reconciliation creates, updates and deletes. */
module WorkflowPolicies {
  import opened Options
  import opened WorkflowModel
  import opened WorkflowComparison

  /** A policy as one step holds it after the comparison. */
  datatype Mark = Mark(name: string, policyType: PolicyType, state: State)

  datatype Tags = Tags(deleted: set<string>, created: set<string>, updated: set<string>, kept: set<string>)

  function Marks(steps: seq<Step>): seq<Mark>
    reads PoliciesOf(steps)
  {
    if steps == [] then []
    else
      var s := steps[|steps| - 1];
      assert forall p :: p in s.policies ==> p in PoliciesOf(steps);
      assert forall p :: p in PoliciesOf(steps[..|steps| - 1]) ==> p in PoliciesOf(steps);
      Marks(steps[..|steps| - 1]) + PolicyMarks(s.policies)
  }

  function PolicyMarks(ps: seq<Policy>): seq<Mark>
    reads ps
  {
    if ps == [] then []
    else
      var p := ps[|ps| - 1];
      PolicyMarks(ps[..|ps| - 1]) + [Mark(p.name, p.policyType, p.state)]
  }

  /** How one mark changes the tags. A policy kept by any step is not deleted, when it is an
      env-binding policy, which several targets share. */
  function Tagged(t: Tags, m: Mark): Tags {
    match m.state
    case Delete =>
      if m.policyType == EnvBinding && m.name in t.kept && m.name != "" then t
      else t.(deleted := t.deleted + {m.name})
    case New => t.(created := t.created + {m.name})
    case Update => t.(updated := t.updated + {m.name})
    case _ =>
      t.(kept := t.kept + {m.name},
         deleted := if m.policyType == EnvBinding then t.deleted - {m.name} else t.deleted)
  }

  function AllTagged(ms: seq<Mark>): Tags {
    if ms == [] then Tags({}, {}, {}, {}) else Tagged(AllTagged(ms[..|ms| - 1]), ms[|ms| - 1])
  }

  /** The first record of each of the names. */
  function Picked(records: seq<ApplicationPolicy>, names: set<string>): seq<ApplicationPolicy> {
    if records == [] then []
    else if records[0].name in names then [records[0]] + Picked(records[1..], names - {records[0].name})
    else Picked(records[1..], names)
  }

  method TagMarks(ms: seq<Mark>) returns (t: Tags)
    ensures t == AllTagged(ms)
  {
    t := Tags({}, {}, {}, {});
    for i := 0 to |ms|
      invariant t == AllTagged(ms[..i])
    {
      assert ms[..i + 1][..i] == ms[..i];
      t := Tagged(t, ms[i]);
    }
    assert ms[..|ms|] == ms;
  }

  /** The lists for marked steps: `ms` is every step's every policy, in order. */
  method GetPolicies(ms: seq<Mark>, existing: seq<ApplicationPolicy>, generated: seq<ApplicationPolicy>)
    returns (created: seq<ApplicationPolicy>, updated: seq<ApplicationPolicy>, deleted: seq<ApplicationPolicy>)
    ensures
      var t := AllTagged(ms);
      && created == Picked(generated, t.created - t.updated)
      && updated == Picked(generated, t.updated)
      && deleted == Picked(existing, t.deleted)
  {
    var t := TagMarks(ms);
    deleted := PickDeleted(existing, t.deleted);
    created, updated := PickGenerated(generated, t.created, t.updated);
  }

  method PickDeleted(existing: seq<ApplicationPolicy>, tags: set<string>) returns (deleted: seq<ApplicationPolicy>)
    ensures deleted == Picked(existing, tags)
  {
    var tagDeleted := tags;
    deleted := [];
    for i := 0 to |existing|
      invariant deleted + Picked(existing[i..], tagDeleted) == Picked(existing, tags)
    {
      assert existing[i..][1..] == existing[i + 1..];
      if existing[i].name in tagDeleted {
        deleted := deleted + [existing[i]];
        tagDeleted := tagDeleted - {existing[i].name};
      }
    }
    assert deleted + [] == deleted;
  }

  method PickGenerated(generated: seq<ApplicationPolicy>, createdTags: set<string>, updatedTags: set<string>)
    returns (created: seq<ApplicationPolicy>, updated: seq<ApplicationPolicy>)
    ensures created == Picked(generated, createdTags - updatedTags)
    ensures updated == Picked(generated, updatedTags)
  {
    var tagCreated, tagUpdated := createdTags, updatedTags;
    created, updated := [], [];
    for i := 0 to |generated|
      invariant updated + Picked(generated[i..], tagUpdated) == Picked(generated, updatedTags)
      invariant created + Picked(generated[i..], tagCreated - tagUpdated) == Picked(generated, createdTags - updatedTags)
    {
      assert generated[i..][1..] == generated[i + 1..];
      var name := generated[i].name;
      if name in tagUpdated {
        updated := updated + [generated[i]];
        assert (tagCreated - {name}) - (tagUpdated - {name}) == tagCreated - tagUpdated;
        tagUpdated := tagUpdated - {name};
        tagCreated := tagCreated - {name};
      } else if name in tagCreated {
        created := created + [generated[i]];
        assert (tagCreated - {name}) - tagUpdated == tagCreated - tagUpdated - {name};
        tagCreated := tagCreated - {name};
      }
    }
    assert created + [] == created && updated + [] == updated;
  }

  // ---------------------------------------------------------------- what the lists hold

  ghost function NamesOf(records: seq<ApplicationPolicy>): set<string> {
    set r | r in records :: r.name
  }

  ghost predicate OncePerName(records: seq<ApplicationPolicy>) {
    forall i, j :: 0 <= i < j < |records| ==> records[i].name != records[j].name
  }

  lemma {:induction false} PickedOnce(records: seq<ApplicationPolicy>, names: set<string>)
    ensures OncePerName(Picked(records, names))
    ensures NamesOf(Picked(records, names)) == NamesOf(records) * names
    ensures forall r :: r in Picked(records, names) ==> r in records
  {
    if records != [] {
      var x := records[0].name;
      var rest := records[1..];
      assert records == [records[0]] + rest;
      assert NamesOf(records) == {x} + NamesOf(rest);
      if x in names {
        PickedOnce(rest, names - {x});
        var p := Picked(rest, names - {x});
        assert NamesOf([records[0]] + p) == {x} + NamesOf(p);
        assert forall r :: r in p ==> r.name in NamesOf(p);
      } else {
        PickedOnce(rest, names);
      }
    }
  }

  /** The record is the first of its name. */
  ghost predicate IsFirst(records: seq<ApplicationPolicy>, r: ApplicationPolicy) {
    exists i :: 0 <= i < |records| && records[i] == r && forall j :: 0 <= j < i ==> records[j].name != r.name
  }

  /** Of several records of a tagged name, the first is listed. */
  lemma {:induction false} PickedFirst(records: seq<ApplicationPolicy>, names: set<string>, r: ApplicationPolicy)
    requires r in Picked(records, names)
    ensures r.name in names && IsFirst(records, r)
  {
    var x, rest := records[0], records[1..];
    if x.name in names {
      if r == x {
        assert records[0] == r;
      } else {
        PickedFirst(rest, names - {x.name}, r);
        FirstBehind(records, r);
      }
    } else {
      PickedFirst(rest, names, r);
      FirstBehind(records, r);
    }
  }

  lemma FirstBehind(records: seq<ApplicationPolicy>, r: ApplicationPolicy)
    requires records != [] && IsFirst(records[1..], r) && records[0].name != r.name
    ensures IsFirst(records, r)
  {
    var rest := records[1..];
    var i :| 0 <= i < |rest| && rest[i] == r && forall j :: 0 <= j < i ==> rest[j].name != r.name;
    assert records[i + 1] == r;
    forall j | 0 <= j < i + 1
      ensures records[j].name != r.name
    {
      assert j > 0 ==> records[j] == rest[j - 1];
    }
  }

  /** No policy is both created and updated, and none is named twice in one list; the lists
      name exactly the tagged policies that exist. */
  lemma ListsAreDisjoint(t: Tags, existing: seq<ApplicationPolicy>, generated: seq<ApplicationPolicy>)
    ensures
      var created, updated, deleted :=
        Picked(generated, t.created - t.updated), Picked(generated, t.updated), Picked(existing, t.deleted);
      && NamesOf(created) !! NamesOf(updated)
      && OncePerName(created) && OncePerName(updated) && OncePerName(deleted)
      && NamesOf(created) + NamesOf(updated) == NamesOf(generated) * (t.created + t.updated)
      && NamesOf(deleted) == NamesOf(existing) * t.deleted
  {
    PickedOnce(generated, t.created - t.updated);
    PickedOnce(generated, t.updated);
    PickedOnce(existing, t.deleted);
  }

  // ---------------------------------------------------------------- shared policies

  ghost predicate Marked(ms: seq<Mark>, name: string, state: State) {
    exists m :: m in ms && m.name == name && m.state == state
  }

  ghost predicate KeptBySome(ms: seq<Mark>, name: string) {
    Marked(ms, name, Keep) || Marked(ms, name, Modify)
  }

  lemma MarkedLast(ms: seq<Mark>, m: Mark, name: string, state: State)
    ensures Marked(ms + [m], name, state) <==> Marked(ms, name, state) || (m.name == name && m.state == state)
  {
    if m.name == name && m.state == state {
      assert m in ms + [m];
    }
    if Marked(ms, name, state) {
      var w :| w in ms && w.name == name && w.state == state;
      assert w in ms + [m];
    }
  }

  lemma NothingMarked(name: string, state: State)
    ensures !Marked([], name, state)
  {
  }

  lemma {:induction false} TagsOfName(ms: seq<Mark>, name: string)
    ensures name in AllTagged(ms).kept <==> KeptBySome(ms, name)
    ensures name in AllTagged(ms).created <==> Marked(ms, name, New)
    ensures name in AllTagged(ms).updated <==> Marked(ms, name, Update)
  {
    hide Marked;
    if ms == [] {
      forall st: State
        ensures !Marked([], name, st)
      {
        NothingMarked(name, st);
      }
    } else {
      var init, m := ms[..|ms| - 1], ms[|ms| - 1];
      assert ms == init + [m];
      TagsOfName(init, name);
      forall st: State
        ensures Marked(ms, name, st) <==> Marked(init, name, st) || (m.name == name && m.state == st)
      {
        MarkedLast(init, m, name, st);
      }
    }
  }

  /** An env-binding policy is deleted exactly when some step deletes it and none keeps it,
      whatever the order of the steps. */
  lemma {:induction false} SharedPolicyDeletedIff(ms: seq<Mark>, name: string)
    requires name != "" && forall m :: m in ms && m.name == name ==> m.policyType == EnvBinding
    ensures name in AllTagged(ms).deleted <==> Marked(ms, name, Delete) && !KeptBySome(ms, name)
  {
    hide Marked;
    if ms == [] {
      NothingMarked(name, Delete);
    } else {
      var init, m := ms[..|ms| - 1], ms[|ms| - 1];
      assert ms == init + [m];
      SharedPolicyDeletedIff(init, name);
      TagsOfName(init, name);
      MarkedLast(init, m, name, Delete);
      MarkedLast(init, m, name, Keep);
      MarkedLast(init, m, name, Modify);
    }
  }

  /** Any other policy is deleted as soon as some step deletes it. */
  lemma {:induction false} UnsharedPolicyDeletedIff(ms: seq<Mark>, name: string)
    requires forall m :: m in ms && m.name == name ==> m.policyType != EnvBinding
    ensures name in AllTagged(ms).deleted <==> Marked(ms, name, Delete)
  {
    if ms != [] {
      var init, m := ms[..|ms| - 1], ms[|ms| - 1];
      assert ms == init + [m];
      UnsharedPolicyDeletedIff(init, name);
      MarkedLast(init, m, name, Delete);
    }
  }

  /** Without a name, the outcome depends on the order: a kept policy may still be deleted. */
  lemma NamelessPolicyDependsOnOrder()
    ensures
      var keep, drop := Mark("", EnvBinding, Keep), Mark("", EnvBinding, Delete);
      "" in AllTagged([keep, drop]).deleted && "" !in AllTagged([drop, keep]).deleted
  {
    var keep, drop := Mark("", EnvBinding, Keep), Mark("", EnvBinding, Delete);
    assert [keep, drop][..1] == [keep] && [drop, keep][..1] == [drop] && [keep][..0] == [] && [drop][..0] == [];
  }

  // ---------------------------------------------------------------- the datastore afterwards

  type Records = map<string, ApplicationPolicy>

  function Named(rs: seq<ApplicationPolicy>): (m: Records)
    ensures m.Keys == NamesOf(rs)
  {
    if rs == [] then map[]
    else
      assert rs == rs[..|rs| - 1] + [rs[|rs| - 1]];
      Named(rs[..|rs| - 1])[rs[|rs| - 1].name := rs[|rs| - 1]]
  }

  /** All the records are added, or none where one of them exists. */
  ghost function AddAll(db: Records, created: seq<ApplicationPolicy>): Records {
    if NamesOf(created) !! db.Keys then db + Named(created) else db
  }

  /** A record that does not exist is not updated. */
  function PutAll(db: Records, updated: seq<ApplicationPolicy>): (r: Records)
    ensures r.Keys == db.Keys
  {
    if updated == [] then db
    else
      var before, r := PutAll(db, updated[..|updated| - 1]), updated[|updated| - 1];
      if r.name in before then before[r.name := r] else before
  }

  /** The records after the deletions, the additions and the updates, in that order. */
  ghost function Stored(db: Records, created: seq<ApplicationPolicy>, updated: seq<ApplicationPolicy>,
                        deleted: seq<ApplicationPolicy>): Records {
    PutAll(AddAll(db - NamesOf(deleted), created), updated)
  }

  /** Records are kept under their names. */
  ghost predicate WellKeyed(db: Records) {
    forall n :: n in db ==> db[n].name == n
  }

  /** A listing of the topology and env-binding policies, in any order. */
  ghost predicate Lists(existing: seq<ApplicationPolicy>, db: Records) {
    && OncePerName(existing)
    && forall r :: r in existing <==> r.name in db && db[r.name] == r && Reconcilable(r)
  }

  predicate Reconcilable(r: ApplicationPolicy) {
    r.policyType == Topology || r.policyType == EnvBinding
  }

  /** The workflow of one environment, if there is one, and the policies of its application. */
  class Datastore {
    var workflow: Option<seq<WorkflowStep>>
    var records: Records

    constructor (workflow: Option<seq<WorkflowStep>>, records: Records)
      ensures this.workflow == workflow && this.records == records
    {
      this.workflow, this.records := workflow, records;
    }

    method List() returns (existing: seq<ApplicationPolicy>)
      requires WellKeyed(records)
      ensures Lists(existing, records)
      ensures forall r :: r in existing <==> r in records.Values && (r.policyType == Topology || r.policyType == EnvBinding)
    {
      existing := [];
      var rest := records.Keys;
      while rest != {}
        invariant rest <= records.Keys && OncePerName(existing)
        invariant forall r :: r in existing <==> r.name in records && r.name !in rest && records[r.name] == r && Reconcilable(r)
        decreases rest
      {
        var n :| n in rest;
        if Reconcilable(records[n]) {
          existing := existing + [records[n]];
        }
        rest := rest - {n};
      }
    }

    method Delete(names: seq<ApplicationPolicy>)
      modifies this`records
      ensures records == old(records) - NamesOf(names)
    {
      for i := 0 to |names|
        invariant records == old(records) - NamesOf(names[..i])
      {
        NamesLast(names, i);
        records := records - {names[i].name};
      }
      assert names[..|names|] == names;
    }

    /** Adds one by one; where a record exists, takes back those added before it. */
    method BatchAdd(created: seq<ApplicationPolicy>)
      requires OncePerName(created)
      modifies this`records
      ensures records == AddAll(old(records), created)
      ensures if forall r :: r in created ==> r.name !in old(records)
              then
                && records.Keys == old(records).Keys + NamesOf(created)
                && (forall r :: r in created ==> records[r.name] == r)
                && (forall n :: n in old(records) ==> records[n] == old(records)[n])
              else records == old(records)
    {
      ghost var db := records;
      for i := 0 to |created|
        invariant records == db + Named(created[..i]) && NamesOf(created[..i]) !! db.Keys
      {
        NotNamedBefore(created, i);
        if created[i].name in records {
          RolledBack(db, created, i);
          assert created[i] in created;
          Rollback(created[..i]);
          return;
        }
        AddedNext(db, created, i);
        records := records[created[i].name := created[i]];
      }
      assert created[..|created|] == created;
      AddContents(db, created);
    }

    method Rollback(added: seq<ApplicationPolicy>)
      modifies this`records
      ensures records == old(records) - NamesOf(added)
    {
      Delete(added);
    }

    method Put(updated: seq<ApplicationPolicy>)
      modifies this`records
      ensures records == PutAll(old(records), updated)
      ensures records.Keys == old(records).Keys
      ensures forall n :: n in old(records) && n !in NamesOf(updated) ==> records[n] == old(records)[n]
      ensures OncePerName(updated) ==> forall r :: r in updated && r.name in old(records) ==> records[r.name] == r
    {
      for i := 0 to |updated|
        invariant records == PutAll(old(records), updated[..i])
      {
        assert updated[..i + 1][..i] == updated[..i];
        if updated[i].name in records {
          records := records[updated[i].name := updated[i]];
        }
      }
      assert updated[..|updated|] == updated;
      PutContents(old(records), updated);
    }
  }

  lemma {:induction false} NamedOnce(rs: seq<ApplicationPolicy>, r: ApplicationPolicy)
    requires OncePerName(rs) && r in rs
    ensures r.name in Named(rs) && Named(rs)[r.name] == r
  {
    var init, last := rs[..|rs| - 1], rs[|rs| - 1];
    assert rs == init + [last];
    if r != last {
      var i :| 0 <= i < |init| && init[i] == r;
      assert rs[i].name != last.name;
      NamedOnce(init, r);
    }
  }

  lemma AddContents(db: Records, created: seq<ApplicationPolicy>)
    requires OncePerName(created) && NamesOf(created) !! db.Keys
    ensures
      var after := AddAll(db, created);
      && after.Keys == db.Keys + NamesOf(created)
      && (forall r :: r in created ==> r.name in after && after[r.name] == r)
      && (forall n :: n in db ==> after[n] == db[n])
    ensures forall r :: r in created ==> r.name !in db
  {
    forall r | r in created
      ensures r.name in Named(created) && Named(created)[r.name] == r && r.name !in db
    {
      NamedOnce(created, r);
    }
  }

  lemma {:induction false} PutContent(db: Records, updated: seq<ApplicationPolicy>, n: string)
    requires n in db
    ensures n !in NamesOf(updated) ==> PutAll(db, updated)[n] == db[n]
    ensures n in NamesOf(updated) ==> PutAll(db, updated)[n] in updated && PutAll(db, updated)[n].name == n
  {
    if updated != [] {
      var init, last := updated[..|updated| - 1], updated[|updated| - 1];
      assert updated == init + [last];
      PutContent(db, init, n);
      assert NamesOf(updated) == NamesOf(init) + {last.name};
    }
  }

  lemma PutContents(db: Records, updated: seq<ApplicationPolicy>)
    ensures forall n :: n in db && n !in NamesOf(updated) ==> PutAll(db, updated)[n] == db[n]
    ensures OncePerName(updated) ==> forall r :: r in updated && r.name in db ==> PutAll(db, updated)[r.name] == r
  {
    forall n | n in db
      ensures n !in NamesOf(updated) ==> PutAll(db, updated)[n] == db[n]
      ensures n in NamesOf(updated) ==> PutAll(db, updated)[n] in updated && PutAll(db, updated)[n].name == n
    {
      PutContent(db, updated, n);
    }
    hide PutAll;
    if OncePerName(updated) {
      forall r | r in updated && r.name in db
        ensures PutAll(db, updated)[r.name] == r
      {
        var q := PutAll(db, updated)[r.name];
        assert r.name in NamesOf(updated);
        var i :| 0 <= i < |updated| && updated[i] == r;
        var j :| 0 <= j < |updated| && updated[j] == q;
        assert i == j;
      }
    }
  }

  lemma NamesLast(rs: seq<ApplicationPolicy>, i: nat)
    requires i < |rs|
    ensures NamesOf(rs[..i + 1]) == NamesOf(rs[..i]) + {rs[i].name}
  {
    assert rs[..i + 1] == rs[..i] + [rs[i]];
  }

  lemma NotNamedBefore(rs: seq<ApplicationPolicy>, i: nat)
    requires OncePerName(rs) && i < |rs|
    ensures rs[i].name !in NamesOf(rs[..i])
  {
    forall r | r in rs[..i]
      ensures r.name != rs[i].name
    {
    }
  }

  lemma AddedNext(db: Records, rs: seq<ApplicationPolicy>, i: nat)
    requires i < |rs| && rs[i].name !in db && NamesOf(rs[..i]) !! db.Keys
    ensures (db + Named(rs[..i]))[rs[i].name := rs[i]] == db + Named(rs[..i + 1])
    ensures NamesOf(rs[..i + 1]) !! db.Keys
  {
    NamesLast(rs, i);
    NamedLast(rs, i);
    UpdatedSum(db, Named(rs[..i]), rs[i].name, rs[i]);
  }

  lemma UpdatedSum<K, V>(a: map<K, V>, b: map<K, V>, k: K, v: V)
    ensures (a + b)[k := v] == a + b[k := v]
  {
  }

  lemma NamedLast(rs: seq<ApplicationPolicy>, i: nat)
    requires i < |rs|
    ensures Named(rs[..i + 1]) == Named(rs[..i])[rs[i].name := rs[i]]
  {
    assert rs[..i + 1][..i] == rs[..i];
  }

  lemma RolledBack(db: Records, rs: seq<ApplicationPolicy>, i: nat)
    requires i < |rs| && rs[i].name in db && NamesOf(rs[..i]) !! db.Keys
    ensures db + Named(rs[..i]) - NamesOf(rs[..i]) == db == AddAll(db, rs)
  {
    assert rs[i].name in NamesOf(rs);
  }

  /** A record is listed and tagged deleted. */
  ghost predicate Dropped(t: Tags, existing: seq<ApplicationPolicy>, name: string) {
    name in NamesOf(existing) && name in t.deleted
  }

  /** A record is generated and tagged created only. */
  ghost predicate Wanted(t: Tags, generated: seq<ApplicationPolicy>, name: string) {
    name in NamesOf(generated) && name in t.created && name !in t.updated
  }

  /** A record to be created is already stored, so that none is created. */
  ghost predicate Collides(t: Tags, existing: seq<ApplicationPolicy>, generated: seq<ApplicationPolicy>, db: Records) {
    exists n :: n in db && Wanted(t, generated, n) && !Dropped(t, existing, n)
  }

  /** The records after a reconciliation that tags policies so. */
  ghost function After(t: Tags, existing: seq<ApplicationPolicy>, generated: seq<ApplicationPolicy>, db: Records): Records {
    Stored(db, Picked(generated, t.created - t.updated), Picked(generated, t.updated), Picked(existing, t.deleted))
  }

  lemma {:induction false} PutKeyed(db: Records, updated: seq<ApplicationPolicy>)
    requires WellKeyed(db)
    ensures WellKeyed(PutAll(db, updated))
  {
    if updated != [] {
      PutKeyed(db, updated[..|updated| - 1]);
    }
  }

  lemma {:induction false} NamedHolds(rs: seq<ApplicationPolicy>, n: string)
    requires n in NamesOf(rs)
    ensures Named(rs)[n] in rs && Named(rs)[n].name == n
  {
    var init, last := rs[..|rs| - 1], rs[|rs| - 1];
    assert rs == init + [last];
    if n != last.name {
      NamedHolds(init, n);
    }
  }

  lemma AfterKeyed(t: Tags, existing: seq<ApplicationPolicy>, generated: seq<ApplicationPolicy>, db: Records)
    requires WellKeyed(db)
    ensures WellKeyed(After(t, existing, generated, db))
  {
    var created, left := Picked(generated, t.created - t.updated), db - NamesOf(Picked(existing, t.deleted));
    forall n | n in AddAll(left, created)
      ensures AddAll(left, created)[n].name == n
    {
      if n in NamesOf(created) {
        NamedHolds(created, n);
      }
    }
    PutKeyed(AddAll(left, created), Picked(generated, t.updated));
  }

  /** After a reconciliation a policy is stored exactly when it was stored and not dropped, or is to
      be created and no other policy to be created is in the way. */
  lemma PolicySurvivesIff(t: Tags, existing: seq<ApplicationPolicy>, generated: seq<ApplicationPolicy>, db: Records, name: string)
    ensures name in After(t, existing, generated, db) <==>
            (name in db && !Dropped(t, existing, name)) ||
            (Wanted(t, generated, name) && !Collides(t, existing, generated, db))
  {
    PickedOnce(generated, t.created - t.updated);
    PickedOnce(existing, t.deleted);
    var created, left := Picked(generated, t.created - t.updated), db - NamesOf(Picked(existing, t.deleted));
    assert forall n :: n in NamesOf(created) <==> Wanted(t, generated, n);
    assert forall n :: n in left <==> n in db && !Dropped(t, existing, n);
    assert NamesOf(created) !! left.Keys <==> !Collides(t, existing, generated, db);
  }

  /** What a record is after a reconciliation: the first generated one of its name where it was stored,
      stays and is updated, or is created; the stored one where it stays and is not updated. */
  lemma RecordContent(t: Tags, existing: seq<ApplicationPolicy>, generated: seq<ApplicationPolicy>, db: Records, name: string)
    ensures
      var after := After(t, existing, generated, db);
      && (name in db && !Dropped(t, existing, name) && name in t.updated && name in NamesOf(generated) ==>
            name in after && after[name].name == name && IsFirst(generated, after[name]))
      && (name in db && !Dropped(t, existing, name) && !(name in t.updated && name in NamesOf(generated)) ==>
            name in after && after[name] == db[name])
      && (Wanted(t, generated, name) && !Collides(t, existing, generated, db) ==>
            name in after && after[name].name == name && IsFirst(generated, after[name]))
  {
    var created, updated := Picked(generated, t.created - t.updated), Picked(generated, t.updated);
    var left := db - NamesOf(Picked(existing, t.deleted));
    var added := AddAll(left, created);
    PickedOnce(generated, t.created - t.updated);
    PickedOnce(generated, t.updated);
    PickedOnce(existing, t.deleted);
    PolicySurvivesIff(t, existing, generated, db, name);
    assert name in NamesOf(created) <==> Wanted(t, generated, name);
    assert name in left <==> name in db && !Dropped(t, existing, name);
    assert After(t, existing, generated, db) == PutAll(added, updated);
    hide Picked, Dropped, IsFirst;
    if name in added {
      PutContent(added, updated, name);
      if name in NamesOf(updated) {
        PickedFirst(generated, t.updated, PutAll(added, updated)[name]);
      } else if name in left {
        assert NamesOf(created) !! left.Keys ==> name !in Named(created);
        assert added[name] == db[name];
      } else {
        NamedHolds(created, name);
        PickedFirst(generated, t.created - t.updated, Named(created)[name]);
      }
    }
  }
}
