/** Which definition a project's picker offers for a name, and where a single lookup of that name
    ends up. */
module DefinitionPicker {
  import opened Options

  datatype Scope = Unscoped | Project | Global

  // ---------------------------------------------------------------- placeOf

  datatype Asked = Anywhere | InProject | InGlobal | Unknown

  datatype Place = PlaceIn(namespace: string) | BadScope | NoProject | ProjectFailed | LookupFailed

  /** What reading one definition in the project's namespace gives. */
  datatype Lookup = Found | NotFound | Failed

  const SYSTEM := "vela-system"

  /** Where the definition a request asks for is: `project` is the request's project, whose
      namespace is itself looked up and may be missing. */
  function PlaceOf(asked: Asked, project: Option<Option<string>>, lookup: Lookup): Place {
    match asked
    case InGlobal => PlaceIn(SYSTEM)
    case Unknown => BadScope
    case InProject =>
      (match project
       case None => NoProject
       case Some(None) => ProjectFailed
       case Some(Some(namespace)) => PlaceIn(namespace))
    case Anywhere =>
      match project
      case None => PlaceIn(SYSTEM)
      case Some(None) => ProjectFailed
      case Some(Some(namespace)) =>
        match lookup
        case Found => PlaceIn(namespace)
        case NotFound => PlaceIn(SYSTEM)
        case Failed => LookupFailed
  }

  /** Where a definition is, by what is asked for. */
  lemma PlaceOfCases(project: Option<Option<string>>, lookup: Lookup, namespace: string)
    ensures PlaceOf(InGlobal, project, lookup) == PlaceIn("vela-system") && PlaceOf(Unknown, project, lookup) == BadScope
    ensures PlaceOf(InProject, None, lookup) == NoProject && PlaceOf(Anywhere, None, lookup) == PlaceIn("vela-system")
    ensures PlaceOf(InProject, Some(None), lookup) == PlaceOf(Anywhere, Some(None), lookup) == ProjectFailed
    ensures PlaceOf(InProject, Some(Some(namespace)), lookup) == PlaceIn(namespace)
    ensures PlaceOf(Anywhere, Some(Some(namespace)), Found) == PlaceIn(namespace)
    ensures PlaceOf(Anywhere, Some(Some(namespace)), NotFound) == PlaceIn("vela-system")
    ensures PlaceOf(Anywhere, Some(Some(namespace)), Failed) == LookupFailed
  {
  }

  /** The lookup from inside a project, its namespace holding the definitions `own`. */
  function Resolved(projectNamespace: string, own: set<string>, name: string): Place {
    PlaceOf(Anywhere, Some(Some(projectNamespace)), if name in own then Found else NotFound)
  }

  // ---------------------------------------------------------------- withProjectDefinitions

  /** A listed definition; its place is written while the lists are joined. */
  class Definition {
    const name: string
    var namespace: string
    var scope: Scope
    var overridden: bool
    var unusableIn: seq<string>

    constructor (name: string)
      ensures this.name == name && scope == Unscoped && !overridden && unusableIn == []
    {
      this.name, namespace, scope, overridden, unusableIn := name, "", Unscoped, false, [];
    }
  }

  ghost function NamesOf(defs: seq<Definition>): set<string> {
    set d | d in defs :: d.name
  }

  ghost predicate OncePerName(defs: seq<Definition>) {
    forall i, j :: 0 <= i < j < |defs| ==> defs[i].name != defs[j].name
  }

  /** Each listed definition is an object of its own. */
  ghost predicate Distinct(defs: seq<Definition>) {
    forall i, j :: 0 <= i < j < |defs| ==> defs[i] != defs[j]
  }

  function Others(namespaces: seq<string>, own: string): seq<string> {
    if namespaces == [] then []
    else Others(namespaces[..|namespaces| - 1], own) + if namespaces[|namespaces| - 1] != own then [namespaces[|namespaces| - 1]] else []
  }

  lemma OthersLast(namespaces: seq<string>, last: string, own: string)
    ensures Others(namespaces + [last], own) == if last == own then Others(namespaces, own) else Others(namespaces, own) + [last]
  {
    assert (namespaces + [last])[..|namespaces|] == namespaces && Others(namespaces, own) + [] == Others(namespaces, own);
  }

  lemma CountLast(s: seq<string>, x: string, n: string)
    ensures multiset(s + [x])[n] == multiset(s)[n] + if n == x then 1 else 0
  {
    assert multiset(s + [x]) == multiset(s) + multiset{x};
  }

  /** The namespaces but the project's, as often as they are asked for. */
  lemma {:induction false} OthersCount(namespaces: seq<string>, own: string, n: string)
    ensures multiset(Others(namespaces, own))[n] == if n == own then 0 else multiset(namespaces)[n]
  {
    if namespaces != [] {
      var init, last := namespaces[..|namespaces| - 1], namespaces[|namespaces| - 1];
      OthersLast(init, last, own);
      hide Others;
      OthersCount(init, own, n);
      assert namespaces == init + [last];
      CountLast(init, last, n);
      CountLast(Others(init, own), last, n);
    }
  }

  ghost predicate MarkedProject(defs: seq<Definition>, namespace: string)
    reads defs
  {
    forall d :: d in defs ==> d.scope == Project && d.namespace == namespace
  }

  ghost predicate MarkedGlobal(defs: seq<Definition>, own: set<string>)
    reads defs
  {
    forall d :: d in defs ==> d.scope == Global && d.namespace == SYSTEM && (d.overridden <==> d.name in own)
  }

  method MarkProject(project: seq<Definition>, namespace: string) returns (own: set<string>)
    modifies project
    ensures MarkedProject(project, namespace) && own == NamesOf(project)
    ensures forall d :: d in project ==> d.unusableIn == old(d.unusableIn)
  {
    own := {};
    for i := 0 to |project|
      invariant MarkedProject(project[..i], namespace) && own == NamesOf(project[..i])
      invariant forall d :: d in project ==> d.unusableIn == old(d.unusableIn)
    {
      assert project[..i + 1] == project[..i] + [project[i]];
      project[i].namespace, project[i].scope := namespace, Project;
      own := own + {project[i].name};
    }
    assert project[..|project|] == project;
  }

  method MarkGlobal(global: seq<Definition>, own: set<string>)
    modifies global
    ensures MarkedGlobal(global, own)
  {
    for i := 0 to |global|
      invariant MarkedGlobal(global[..i], own)
    {
      assert global[..i + 1] == global[..i] + [global[i]];
      global[i].namespace, global[i].scope := SYSTEM, Global;
      global[i].overridden := global[i].name in own;
    }
    assert global[..|global|] == global;
  }

  /** The global definitions the picker offers beside the project's. */
  function Unoverridden(global: seq<Definition>, own: set<string>): seq<Definition> {
    if global == [] then []
    else
      var d := global[|global| - 1];
      Unoverridden(global[..|global| - 1], own) + if d.name in own then [] else [d]
  }

  method MarkUnusable(d: Definition, namespaces: seq<string>, own: string)
    modifies d`unusableIn
    ensures d.unusableIn == old(d.unusableIn) + Others(namespaces, own)
  {
    for i := 0 to |namespaces|
      invariant d.unusableIn == old(d.unusableIn) + Others(namespaces[..i], own)
    {
      assert namespaces[..i + 1][..i] == namespaces[..i];
      if namespaces[i] != own {
        d.unusableIn := d.unusableIn + [namespaces[i]];
      }
    }
    assert namespaces[..|namespaces|] == namespaces;
  }

  ghost predicate Offers(namespaces: seq<string>, own: string) {
    namespaces == [] || own in namespaces
  }

  /** What the picker lists. */
  ghost function Picked(project: seq<Definition>, global: seq<Definition>, projectNamespace: string,
                        namespaces: seq<string>): seq<Definition> {
    if Offers(namespaces, projectNamespace) then project + Unoverridden(global, NamesOf(project)) else global
  }

  /** The project's definitions, each marked with the namespaces it cannot be used in. */
  method OfferProject(project: seq<Definition>, namespaces: seq<string>, own: string)
    requires Distinct(project)
    modifies project`unusableIn
    ensures forall d :: d in project ==> d.unusableIn == old(d.unusableIn) + Others(namespaces, own)
  {
    for i := 0 to |project|
      invariant forall j :: 0 <= j < i ==> project[j].unusableIn == old(project[j].unusableIn) + Others(namespaces, own)
      invariant forall j :: i <= j < |project| ==> project[j].unusableIn == old(project[j].unusableIn)
    {
      MarkUnusable(project[i], namespaces, own);
    }
  }

  method WithProjectDefinitions(project: seq<Definition>, global: seq<Definition>, projectNamespace: string,
                                namespaces: seq<string>, all: bool)
    returns (out: seq<Definition>)
    requires Distinct(project) && forall d :: d in project ==> d !in global
    modifies project, global
    ensures MarkedProject(project, projectNamespace) && MarkedGlobal(global, NamesOf(project))
    ensures out == if all then project + global else Picked(project, global, projectNamespace, namespaces)
    ensures !all && namespaces != [] && projectNamespace !in namespaces ==> out == global
    ensures !all && (namespaces == [] || projectNamespace in namespaces) ==> project <= out && |out| <= |project| + |global|
    ensures forall d :: d in project ==> d.scope == Project && d.namespace == projectNamespace
    ensures forall d :: d in global ==> d.scope == Global && d.namespace == "vela-system"
    ensures !all && Offers(namespaces, projectNamespace) ==>
              forall d :: d in project ==> d.unusableIn == old(d.unusableIn) + Others(namespaces, projectNamespace)
  {
    var own := MarkProject(project, projectNamespace);
    MarkGlobal(global, own);
    assert forall d :: d in project ==> d.unusableIn == old(d.unusableIn);
    if all {
      return project + global;
    }
    var inProject := |namespaces| == 0 || projectNamespace in namespaces;
    var front: seq<Definition> := [];
    if inProject {
      OfferProject(project, namespaces, projectNamespace);
      front := project;
    }
    var back := OfferGlobal(global, inProject, own);
    out := front + back;
    UnoverriddenShorter(global, own);
  }

  lemma {:induction false} UnoverriddenShorter(global: seq<Definition>, own: set<string>)
    ensures |Unoverridden(global, own)| <= |global|
  {
    if global != [] {
      UnoverriddenShorter(global[..|global| - 1], own);
    }
  }

  method OfferGlobal(global: seq<Definition>, inProject: bool, ghost own: set<string>) returns (out: seq<Definition>)
    requires MarkedGlobal(global, own)
    ensures out == if inProject then Unoverridden(global, own) else global
  {
    out := [];
    for i := 0 to |global|
      invariant out == if inProject then Unoverridden(global[..i], own) else global[..i]
    {
      assert global[..i + 1][..i] == global[..i];
      assert global[i] in global;
      if !inProject || !global[i].overridden {
        out := out + [global[i]];
      }
    }
    assert global[..|global|] == global;
  }

  // ---------------------------------------------------------------- one per name, and the right one

  lemma OnceConcat(a: seq<Definition>, b: seq<Definition>)
    requires OncePerName(a) && OncePerName(b)
    requires forall i, j :: 0 <= i < |a| && 0 <= j < |b| ==> a[i].name != b[j].name
    ensures OncePerName(a + b)
  {
    var out := a + b;
    forall i, j | 0 <= i < j < |out|
      ensures out[i].name != out[j].name
    {
      if i < |a| <= j {
        assert out[i] == a[i] && out[j] == b[j - |a|];
      } else if j < |a| {
        assert out[i] == a[i] && out[j] == a[j];
      } else {
        assert out[i] == b[i - |a|] && out[j] == b[j - |a|];
      }
    }
  }

  lemma OnceInit(ds: seq<Definition>)
    requires OncePerName(ds) && ds != []
    ensures OncePerName(ds[..|ds| - 1]) && forall x :: x in ds[..|ds| - 1] ==> x.name != ds[|ds| - 1].name
  {
    assert forall i :: 0 <= i < |ds| - 1 ==> ds[..|ds| - 1][i] == ds[i];
  }

  lemma {:induction false} UnoverriddenHolds(global: seq<Definition>, own: set<string>)
    ensures forall d :: d in global && d.name !in own ==> d in Unoverridden(global, own)
    ensures forall i :: 0 <= i < |Unoverridden(global, own)| ==>
              Unoverridden(global, own)[i] in global && Unoverridden(global, own)[i].name !in own
  {
    if global != [] {
      UnoverriddenHolds(global[..|global| - 1], own);
      assert global == global[..|global| - 1] + [global[|global| - 1]];
    }
  }

  lemma {:induction false} UnoverriddenOnce(global: seq<Definition>, own: set<string>)
    requires OncePerName(global)
    ensures OncePerName(Unoverridden(global, own))
  {
    if global != [] {
      var init, d := global[..|global| - 1], global[|global| - 1];
      OnceInit(global);
      UnoverriddenOnce(init, own);
      UnoverriddenHolds(init, own);
      var kept, last := Unoverridden(init, own), if d.name in own then [] else [d];
      forall i, j | 0 <= i < |kept| && 0 <= j < |last|
        ensures kept[i].name != last[j].name
      {
        assert kept[i] in init && last[j] == d;
      }
      OnceConcat(kept, last);
    }
  }

  /** The picker lists each available name exactly once: the names the project can use where its
      namespace is asked for, else the global ones. */
  lemma PickerListsEachNameOnce(project: seq<Definition>, global: seq<Definition>, projectNamespace: string,
                                namespaces: seq<string>)
    requires OncePerName(project) && OncePerName(global)
    ensures
      var out := Picked(project, global, projectNamespace, namespaces);
      && OncePerName(out)
      && NamesOf(out) == NamesOf(global) + if Offers(namespaces, projectNamespace) then NamesOf(project) else {}
  {
    if Offers(namespaces, projectNamespace) {
      var rest := Unoverridden(global, NamesOf(project));
      UnoverriddenHolds(global, NamesOf(project));
      UnoverriddenOnce(global, NamesOf(project));
      forall i, j | 0 <= i < |project| && 0 <= j < |rest|
        ensures project[i].name != rest[j].name
      {
        assert project[i].name in NamesOf(project);
      }
      OnceConcat(project, rest);
      SameNames(project, global, project + rest);
    }
  }

  lemma SameNames(project: seq<Definition>, global: seq<Definition>, out: seq<Definition>)
    requires out == project + Unoverridden(global, NamesOf(project))
    ensures NamesOf(out) == NamesOf(project) + NamesOf(global)
  {
    var own, rest := NamesOf(project), Unoverridden(global, NamesOf(project));
    UnoverriddenHolds(global, own);
    forall n | n in NamesOf(out)
      ensures n in own + NamesOf(global)
    {
      var d :| d in out && d.name == n;
      assert d in project || d in rest;
    }
    forall n | n in own + NamesOf(global)
      ensures n in NamesOf(out)
    {
      if n in own {
        var d :| d in project && d.name == n;
        assert d in out;
      } else {
        var d :| d in global && d.name == n;
        assert d in rest && d in out;
      }
    }
  }

  /** The definition it lists for a name is the one a lookup from the project resolves the name to,
      unless the project's namespace is not asked for and the project overrides the name. */
  lemma PickerAgreesWithLookupIff(project: seq<Definition>, global: seq<Definition>, projectNamespace: string,
                                  namespaces: seq<string>, i: nat)
    requires MarkedProject(project, projectNamespace) && MarkedGlobal(global, NamesOf(project))
    requires i < |Picked(project, global, projectNamespace, namespaces)|
    ensures
      var d := Picked(project, global, projectNamespace, namespaces)[i];
      Resolved(projectNamespace, NamesOf(project), d.name) == PlaceIn(d.namespace) <==>
        Offers(namespaces, projectNamespace) || d.name !in NamesOf(project) || projectNamespace == SYSTEM
  {
    var d, own := Picked(project, global, projectNamespace, namespaces)[i], NamesOf(project);
    UnoverriddenHolds(global, own);
    if Offers(namespaces, projectNamespace) {
      if i < |project| {
        assert d == project[i] && d in project && d.name in own;
      } else {
        assert d == Unoverridden(global, own)[i - |project|];
        assert d in global;
      }
    } else {
      assert d in global;
    }
  }

  /** Asking for every scope lists all definitions, and the ones not marked overridden are those a
      lookup from the project finds. */
  lemma OverriddenMarksWhatLookupHides(project: seq<Definition>, global: seq<Definition>, projectNamespace: string, i: nat)
    requires MarkedProject(project, projectNamespace) && MarkedGlobal(global, NamesOf(project))
    requires i < |global| && projectNamespace != SYSTEM
    ensures global[i].overridden <==> Resolved(projectNamespace, NamesOf(project), global[i].name) != PlaceIn(global[i].namespace)
  {
    assert global[i] in global;
  }
}
