/** Resource names, the order in which permissions cover them, and the permission check. */
module Permissions {
  import opened Options

  // ---------------------------------------------------------------- resource names

  /** A chain of typed segments, such as a project and an application in it. */
  datatype ResourceName = ResourceName(kind: string, value: string, next: Option<ResourceName>)

  /** The first position of `c` at or after `from`. */
  function IndexFrom(s: string, c: char, from: nat): (i: int)
    requires from <= |s| + 1
    ensures i == -1 || from <= i < |s|
    ensures i >= 0 ==> s[i] == c && forall j :: from <= j < i ==> s[j] != c
    ensures i == -1 ==> forall j :: from <= j < |s| ==> s[j] != c
    decreases |s| + 1 - from
  {
    if from >= |s| then -1 else if s[from] == c then from else IndexFrom(s, c, from + 1)
  }

  function SplitColon(s: string): (r: seq<string>)
    ensures |r| >= 1
    ensures |r| == 1 <==> ':' !in s
    decreases |s|
  {
    var i := IndexFrom(s, ':', 0);
    if i == -1 then [s]
    else
      assert s[i] in s;
      [s[..i]] + SplitColon(s[i + 1..])
  }

  /** The parser: a slash ends a segment unless it is its first character; a segment that is not
      one type and one value keeps its first part as type and stands for every value. */
  function Parse(s: string): ResourceName
    decreases |s|
  {
    var index := IndexFrom(s, '/', 1);
    var node := if index > -1 then s[..index] else s;
    var tn := SplitColon(node);
    var kind := tn[0];
    var value := if |tn| == 2 then tn[1] else "*";
    if index > -1 && s[index + 1..] != "" then ResourceName(kind, value, Some(Parse(s[index + 1..])))
    else ResourceName(kind, value, None)
  }

  function Print(r: ResourceName): string {
    r.kind + ":" + r.value + match r.next
      case None => ""
      case Some(n) => "/" + Print(n)
  }

  predicate SegmentFormed(kind: string, value: string) {
    && ':' !in kind && ':' !in value && '/' !in value
    && forall i :: 1 <= i < |kind| ==> kind[i] != '/'
  }

  /** The names the parser yields: no colon, no slash but in front of a type. */
  predicate WellFormed(r: ResourceName) {
    SegmentFormed(r.kind, r.value) && (r.next.Some? ==> WellFormed(r.next.value))
  }

  lemma SplitOnce(a: string, b: string)
    requires ':' !in a && ':' !in b
    ensures SplitColon(a + ":" + b) == [a, b]
  {
    var s := a + ":" + b;
    assert s[|a|] == ':' && forall j :: 0 <= j < |a| ==> s[j] == a[j];
    assert IndexFrom(s, ':', 0) == |a|;
    assert s[..|a|] == a && s[|a| + 1..] == b;
  }

  lemma NodeEnd(kind: string, value: string, rest: string)
    requires SegmentFormed(kind, value)
    ensures IndexFrom(kind + ":" + value, '/', 1) == -1
    ensures IndexFrom(kind + ":" + value + "/" + rest, '/', 1) == |kind| + 1 + |value|
  {
    var node := kind + ":" + value;
    forall i | 1 <= i < |node|
      ensures node[i] != '/'
    {
      if i > |kind| {
        assert node[i] == value[i - |kind| - 1];
      }
    }
    var s := node + "/" + rest;
    assert s[|node|] == '/' && forall i :: 0 <= i < |node| ==> s[i] == node[i];
  }

  lemma ParseLast(kind: string, value: string)
    requires SegmentFormed(kind, value)
    ensures Parse(kind + ":" + value) == ResourceName(kind, value, None)
  {
    SplitOnce(kind, value);
    NodeEnd(kind, value, "");
    hide IndexFrom, SplitColon, SegmentFormed;
  }

  lemma ParseMore(kind: string, value: string, rest: string)
    requires SegmentFormed(kind, value) && rest != ""
    ensures Parse(kind + ":" + value + "/" + rest) == ResourceName(kind, value, Some(Parse(rest)))
  {
    var node := kind + ":" + value;
    var s := node + "/" + rest;
    SplitOnce(kind, value);
    NodeEnd(kind, value, rest);
    hide Parse, IndexFrom, SplitColon, SegmentFormed;
    assert s[..|node|] == node && s[|node| + 1..] == rest;
    ParseAt(s, |node|, kind, value);
  }

  lemma ParseAt(s: string, i: nat, kind: string, value: string)
    requires i < |s| && IndexFrom(s, '/', 1) == i && SplitColon(s[..i]) == [kind, value] && s[i + 1..] != ""
    ensures Parse(s) == ResourceName(kind, value, Some(Parse(s[i + 1..])))
  {
    hide IndexFrom, SplitColon;
  }

  lemma {:induction false} ParsePrinted(r: ResourceName)
    requires WellFormed(r)
    ensures Parse(Print(r)) == r
  {
    hide Parse, SegmentFormed;
    var node := r.kind + ":" + r.value;
    match r.next
    case None =>
      ParseLast(r.kind, r.value);
      assert Print(r) == node + "" == node;
    case Some(n) =>
      ParsePrinted(n);
      assert |Print(n)| >= 1;
      ParseMore(r.kind, r.value, Print(n));
      assert Print(r) == node + ("/" + Print(n)) == node + "/" + Print(n);
  }

  lemma SplitNone(node: string)
    requires ':' !in node
    ensures SplitColon(node) == [node]
  {
  }

  lemma SplitMany(a: string, b: string)
    requires ':' !in a && ':' in b
    ensures SplitColon(a + ":" + b)[0] == a && |SplitColon(a + ":" + b)| > 2
  {
    var s := a + ":" + b;
    assert s[|a|] == ':' && forall j :: 0 <= j < |a| ==> s[j] == a[j];
    assert IndexFrom(s, ':', 0) == |a|;
    assert s[..|a|] == a && s[|a| + 1..] == b;
  }

  ghost predicate OneSegment(node: string) {
    forall i :: 1 <= i < |node| ==> node[i] != '/'
  }

  lemma ParseAlone(node: string)
    requires OneSegment(node)
    ensures Parse(node) == ResourceName(SplitColon(node)[0], if |SplitColon(node)| == 2 then SplitColon(node)[1] else "*", None)
  {
    hide SplitColon;
    assert IndexFrom(node, '/', 1) == -1 || |node| == 0;
  }

  /** A segment without a colon, or with several, is a type for every value. */
  lemma ParseWithoutValue(kind: string, more: string)
    requires ':' !in kind && ':' in more
    ensures OneSegment(kind) ==> Parse(kind) == ResourceName(kind, "*", None)
    ensures OneSegment(kind + ":" + more) ==> Parse(kind + ":" + more) == ResourceName(kind, "*", None)
  {
    SplitNone(kind);
    SplitMany(kind, more);
    hide SplitColon;
    if OneSegment(kind) {
      ParseAlone(kind);
    }
    if OneSegment(kind + ":" + more) {
      ParseAlone(kind + ":" + more);
    }
  }

  /** A slash at the end adds nothing. */
  lemma ParseTrailingSlash(node: string)
    requires OneSegment(node) && node != ""
    ensures Parse(node + "/") == Parse(node)
  {
    ParseAlone(node);
    var s := node + "/";
    assert s[|node|] == '/' && forall i :: 0 <= i < |node| ==> s[i] == node[i];
    assert IndexFrom(s, '/', 1) == |node|;
    hide SplitColon, IndexFrom;
    assert s[..|node|] == node && s[|node| + 1..] == "";
  }

  lemma {:induction false} SplitPieces(s: string, p: string)
    requires p in SplitColon(s)
    ensures ':' !in p && forall c :: c in p ==> c in s
    decreases |s|
  {
    var i := IndexFrom(s, ':', 0);
    if i > -1 && p != s[..i] {
      SplitPieces(s[i + 1..], p);
    }
  }

  lemma SplitHead(s: string)
    ensures SplitColon(s)[0] <= s
  {
  }

  lemma SecondPiece(node: string)
    requires forall i :: 1 <= i < |node| ==> node[i] != '/'
    requires |SplitColon(node)| == 2
    ensures '/' !in SplitColon(node)[1]
  {
    var i := IndexFrom(node, ':', 0);
    var rest := node[i + 1..];
    assert SplitColon(node) == [node[..i]] + SplitColon(rest);
    SplitHead(rest);
    hide SplitColon, IndexFrom;
    assert SplitColon(node)[1] == SplitColon(rest)[0];
  }

  lemma SegmentParsed(node: string)
    requires forall i :: 1 <= i < |node| ==> node[i] != '/'
    ensures
      var tn := SplitColon(node);
      SegmentFormed(tn[0], if |tn| == 2 then tn[1] else "*")
  {
    var tn := SplitColon(node);
    SplitPieces(node, tn[0]);
    SplitHead(node);
    if |tn| == 2 {
      SecondPiece(node);
      SplitPieces(node, tn[1]);
    }
  }

  lemma {:induction false} ParsedIsWellFormed(s: string)
    ensures WellFormed(Parse(s))
    decreases |s|
  {
    var index := IndexFrom(s, '/', 1);
    SegmentParsed(if index > -1 then s[..index] else s);
    if index > -1 && s[index + 1..] != "" {
      ParsedIsWellFormed(s[index + 1..]);
    }
  }

  /** Parsing the printed form rebuilds a chain exactly when it is one the parser can yield. */
  lemma PrintParseIff(r: ResourceName)
    ensures Parse(Print(r)) == r <==> WellFormed(r)
  {
    if WellFormed(r) {
      ParsePrinted(r);
    }
    ParsedIsWellFormed(Print(r));
  }

  // ---------------------------------------------------------------- matching

  /** Whether a permission's resource covers the requested one, segment by segment. A missing
      segment or one without a type ends a chain. */
  predicate Covers(perm: Option<ResourceName>, req: Option<ResourceName>)
    decreases perm
  {
    if perm.None? || perm.value.kind == "" then Ended(req)
    else if perm.value.kind == "*" then true
    else
      && !Ended(req)
      && perm.value.kind == req.value.kind
      && (perm.value.value == req.value.value || perm.value.value == "*" || req.value.value == "?")
      && Covers(perm.value.next, req.value.next)
  }

  predicate Ended(r: Option<ResourceName>) {
    r.None? || r.value.kind == ""
  }

  method ResourceMatch(request: ResourceName, permission: ResourceName) returns (r: bool)
    ensures r <==> Covers(Some(permission), Some(request))
  {
    var current: Option<ResourceName> := Some(permission);
    var target: Option<ResourceName> := Some(request);
    while current.Some? && current.value.kind != ""
      invariant Covers(Some(permission), Some(request)) <==> Covers(current, target)
      decreases current
    {
      if current.value.kind == "*" {
        return true;
      }
      if target.None? || target.value.kind == "" {
        return false;
      }
      if current.value.kind != target.value.kind {
        return false;
      }
      if current.value.value != target.value.value && current.value.value != "*" && target.value.value != "?" {
        return false;
      }
      current, target := current.value.next, target.value.next;
    }
    if target.Some? && target.value.kind != "" {
      return false;
    }
    return true;
  }

  /** The segments of a name, up to the first without a type. */
  function Segments(r: Option<ResourceName>): seq<Segment>
    decreases r
  {
    if r.None? || r.value.kind == "" then [] else [(r.value.kind, r.value.value)] + Segments(r.value.next)
  }

  type Segment = (string, string)

  /** The types agree, and the values agree, or the permission stands for every value or the request
      asks for any. */
  predicate SegmentCovers(p: Segment, r: Segment) {
    p.0 == r.0 && (p.1 == r.1 || p.1 == "*" || r.1 == "?")
  }

  /** The first `n` segments of a permission cover those of a request, and behind them either the
      permission stands for all types or both end. */
  ghost predicate CoveredUpTo(ps: seq<Segment>, rs: seq<Segment>, n: int) {
    && 0 <= n <= |ps| && n <= |rs|
    && (forall i :: 0 <= i < n ==> ps[i].0 != "*" && SegmentCovers(ps[i], rs[i]))
    && if n < |ps| then ps[n].0 == "*" else |rs| == |ps|
  }

  ghost predicate SegmentsCover(ps: seq<Segment>, rs: seq<Segment>) {
    exists n :: CoveredUpTo(ps, rs, n)
  }

  lemma CoveredBehind(p: Segment, ps: seq<Segment>, r: Segment, rs: seq<Segment>, n: nat)
    requires p.0 != "*"
    ensures !CoveredUpTo([p] + ps, [r] + rs, 0)
    ensures CoveredUpTo([p] + ps, [r] + rs, n + 1) <==> SegmentCovers(p, r) && CoveredUpTo(ps, rs, n)
  {
    hide SegmentCovers;
    var ps', rs' := [p] + ps, [r] + rs;
    assert ps'[0] == p && rs'[0] == r;
    assert forall i :: 0 <= i < |ps| ==> ps'[i + 1] == ps[i];
    assert forall i :: 0 <= i < |rs| ==> rs'[i + 1] == rs[i];
    if CoveredUpTo(ps', rs', n + 1) {
      assert SegmentCovers(ps'[0], rs'[0]);
      forall i | 0 <= i < n
        ensures ps[i].0 != "*" && SegmentCovers(ps[i], rs[i])
      {
        assert ps'[i + 1].0 != "*" && SegmentCovers(ps'[i + 1], rs'[i + 1]);
      }
    }
    if SegmentCovers(p, r) && CoveredUpTo(ps, rs, n) {
      forall i | 0 <= i < n + 1
        ensures ps'[i].0 != "*" && SegmentCovers(ps'[i], rs'[i])
      {
        assert i > 0 ==> ps'[i] == ps[i - 1] && rs'[i] == rs[i - 1];
      }
    }
  }

  /** A permission covers a request exactly when its segments do, one by one, up to one for all types
      or up to the end of both. */
  lemma {:induction false} CoversIff(perm: Option<ResourceName>, req: Option<ResourceName>)
    ensures Covers(perm, req) <==> SegmentsCover(Segments(perm), Segments(req))
    decreases perm
  {
    var ps, rs := Segments(perm), Segments(req);
    if perm.None? || perm.value.kind == "" {
      assert ps == [] && (|rs| == 0 <==> Ended(req));
      NothingCovers(rs);
    } else if perm.value.kind == "*" {
      assert ps[0].0 == "*" && CoveredUpTo(ps, rs, 0);
    } else if Ended(req) {
      assert rs == [] && ps[0].0 != "*";
      NothingCovered(ps);
    } else {
      var p, r := (perm.value.kind, perm.value.value), (req.value.kind, req.value.value);
      CoversIff(perm.value.next, req.value.next);
      CoveredSteps(p, Segments(perm.value.next), r, Segments(req.value.next));
      assert ps == [p] + Segments(perm.value.next) && rs == [r] + Segments(req.value.next);
      assert Covers(perm, req) <==> SegmentCovers(p, r) && Covers(perm.value.next, req.value.next);
    }
  }

  lemma NothingCovers(rs: seq<Segment>)
    ensures SegmentsCover([], rs) <==> |rs| == 0
  {
    if |rs| == 0 {
      assert CoveredUpTo([], rs, 0);
    }
  }

  lemma NothingCovered(ps: seq<Segment>)
    requires |ps| > 0 && ps[0].0 != "*"
    ensures !SegmentsCover(ps, [])
  {
  }

  lemma CoveredSteps(p: Segment, ps: seq<Segment>, r: Segment, rs: seq<Segment>)
    requires p.0 != "*"
    ensures SegmentsCover([p] + ps, [r] + rs) <==> SegmentCovers(p, r) && SegmentsCover(ps, rs)
  {
    assert forall n :: CoveredUpTo([p] + ps, [r] + rs, n) || CoveredUpTo(ps, rs, n) ==> n >= 0;
    hide CoveredUpTo, SegmentCovers;
    if n :| CoveredUpTo([p] + ps, [r] + rs, n) {
      CoveredBehind(p, ps, r, rs, if n > 0 then n - 1 else 0);
    }
    if n :| CoveredUpTo(ps, rs, n) {
      CoveredBehind(p, ps, r, rs, n);
    }
  }

  lemma {:induction false} AnySegments(ps: seq<Segment>, rs: seq<Segment>) returns (n: nat)
    requires |ps| == |rs| && forall i :: 0 <= i < |ps| ==> ps[i].0 == rs[i].0 && rs[i].1 == "?"
    ensures CoveredUpTo(ps, rs, n)
    decreases |ps|
  {
    if ps == [] || ps[0].0 == "*" {
      n := 0;
    } else {
      var k := AnySegments(ps[1..], rs[1..]);
      assert ps == [ps[0]] + ps[1..] && rs == [rs[0]] + rs[1..];
      assert SegmentCovers(ps[0], rs[0]);
      CoveredBehind(ps[0], ps[1..], rs[0], rs[1..], k);
      n := k + 1;
    }
  }

  lemma {:induction false} EverySegment(ps: seq<Segment>, rs: seq<Segment>) returns (n: nat)
    requires |ps| == |rs| && forall i :: 0 <= i < |ps| ==> ps[i].0 == rs[i].0 && ps[i].1 == "*"
    ensures CoveredUpTo(ps, rs, n)
    decreases |ps|
  {
    if ps == [] || ps[0].0 == "*" {
      n := 0;
    } else {
      var k := EverySegment(ps[1..], rs[1..]);
      assert ps == [ps[0]] + ps[1..] && rs == [rs[0]] + rs[1..];
      assert SegmentCovers(ps[0], rs[0]);
      CoveredBehind(ps[0], ps[1..], rs[0], rs[1..], k);
      n := k + 1;
    }
  }

  /** A permission for every value covers every request of the same types. */
  lemma EveryValueCovers(perm: Option<ResourceName>, req: Option<ResourceName>)
    requires
      var ps, rs := Segments(perm), Segments(req);
      |ps| == |rs| && forall i :: 0 <= i < |ps| ==> ps[i].0 == rs[i].0 && ps[i].1 == "*"
    ensures Covers(perm, req)
  {
    hide Covers, Segments;
    var n := EverySegment(Segments(perm), Segments(req));
    CoversIff(perm, req);
  }

  /** A request for any value is covered by every permission of the same types. */
  lemma AnyValueIsCovered(perm: Option<ResourceName>, req: Option<ResourceName>)
    requires
      var ps, rs := Segments(perm), Segments(req);
      |ps| == |rs| && forall i :: 0 <= i < |ps| ==> ps[i].0 == rs[i].0 && rs[i].1 == "?"
    ensures Covers(perm, req)
  {
    hide Covers, Segments;
    var n := AnySegments(Segments(perm), Segments(req));
    CoversIff(perm, req);
  }

  lemma {:induction false} CoversReflexive(r: Option<ResourceName>)
    ensures Covers(r, r)
  {
    if r.Some? {
      CoversReflexive(r.value.next);
    }
  }

  /** What a permission covers stays covered when the request is narrowed to something the
      request itself covers. */
  lemma {:induction false} CoversTransitive(perm: Option<ResourceName>, wide: Option<ResourceName>, narrow: Option<ResourceName>)
    requires Covers(perm, wide) && Covers(wide, narrow)
    ensures Covers(perm, narrow)
    decreases perm
  {
    if perm.Some? && perm.value.kind != "" && perm.value.kind != "*" {
      CoversTransitive(perm.value.next, wide.value.next, narrow.value.next);
    }
  }

  /** What of a name can be seen by matching: its segments up to the first without a type, and
      nothing behind a segment for all types. */
  function Essence(r: Option<ResourceName>): seq<(string, string)>
    decreases r
  {
    if Ended(r) then []
    else if r.value.kind == "*" then [("*", "")]
    else [(r.value.kind, r.value.value)] + Essence(r.value.next)
  }

  lemma SameHead<T>(a: T, s: seq<T>, b: T, t: seq<T>)
    ensures [a] + s == [b] + t <==> a == b && s == t
  {
    if [a] + s == [b] + t {
      assert a == ([a] + s)[0] == b;
      assert s == ([a] + s)[1..] == t;
    }
  }

  /** Covering is a partial order on what can be seen of names: two names cover each other
      exactly when they look the same. */
  lemma {:induction false} CoversAntisymmetric(a: Option<ResourceName>, b: Option<ResourceName>)
    ensures Covers(a, b) && Covers(b, a) <==> Essence(a) == Essence(b)
    decreases a
  {
    if !Ended(a) && !Ended(b) && a.value.kind != "*" && b.value.kind != "*" {
      CoversAntisymmetric(a.value.next, b.value.next);
      SameHead((a.value.kind, a.value.value), Essence(a.value.next), (b.value.kind, b.value.value), Essence(b.value.next));
    } else if !Ended(a) && !Ended(b) {
      assert Essence(a)[0].0 == a.value.kind && Essence(b)[0].0 == b.value.kind;
    }
  }

  // ---------------------------------------------------------------- checkPermission

  datatype Permission = Permission(effect: string, actions: seq<string>, resources: Option<seq<string>>)

  datatype Request = Request(resource: string, action: string)

  datatype UserInfo = UserInfo(
    platformPermissions: Option<seq<Permission>>,
    projectPermissions: Option<map<string, seq<Permission>>>)

  function Lower(s: string): (r: string)
    ensures |r| == |s|
    ensures forall i :: 0 <= i < |s| ==> r[i] == if 'A' <= s[i] <= 'Z' then (s[i] as int + 32) as char else s[i]
  {
    if s == [] then []
    else [if 'A' <= s[0] <= 'Z' then (s[0] as int + 32) as char else s[0]] + Lower(s[1..])
  }

  /** Some of the named resources covers the target. */
  ghost predicate CoveredBySome(resources: seq<string>, target: ResourceName) {
    exists res :: res in resources && Covers(Some(Parse(res)), Some(target))
  }

  ghost predicate Matches(request: Request, p: Permission) {
    && (request.action in p.actions || "*" in p.actions)
    && p.resources.Some?
    && CoveredBySome(p.resources.value, Parse(request.resource))
  }

  method AnyCovers(resources: seq<string>, target: ResourceName) returns (r: bool)
    ensures r <==> CoveredBySome(resources, target)
  {
    for i := 0 to |resources|
      invariant !CoveredBySome(resources[..i], target)
    {
      assert resources[..i + 1] == resources[..i] + [resources[i]];
      var covered := ResourceMatch(target, Parse(resources[i]));
      if covered {
        assert resources[i] in resources;
        return true;
      }
    }
    assert resources[..|resources|] == resources;
    return false;
  }

  method Match(request: Request, p: Permission) returns (r: bool)
    ensures r <==> Matches(request, p)
    ensures r <==> (request.action in p.actions || "*" in p.actions) && p.resources.Some? &&
                   exists res :: res in p.resources.value && Covers(Some(Parse(res)), Some(Parse(request.resource)))
  {
    if request.action !in p.actions && "*" !in p.actions {
      return false;
    }
    if p.resources.None? || |p.resources.value| == 0 {
      return false;
    }
    r := AnyCovers(p.resources.value, Parse(request.resource));
  }

  /** The permissions that apply: the platform's, and those of the project asked about, or of
      every project when any is asked for. */
  ghost function Applicable(project: string, user: UserInfo): set<Permission> {
    var platform := if user.platformPermissions.Some? then user.platformPermissions.value else [];
    (set p | p in platform)
    + if project == "" || user.projectPermissions.None? then {}
      else
        var byProject := user.projectPermissions.value;
        set k, p | k in byProject && (project == "?" || k == project) && p in byProject[k] :: p
  }

  ghost predicate Denies(request: Request, p: Permission) {
    Lower(p.effect) == "deny" && Matches(request, p)
  }

  ghost predicate Allows(request: Request, p: Permission) {
    (Lower(p.effect) == "allow" || Lower(p.effect) == "") && Matches(request, p)
  }

  /** Deny over allow, decided from the set of applicable permissions. */
  ghost predicate Granted(request: Request, ps: set<Permission>) {
    (forall p :: p in ps ==> !Denies(request, p)) && exists p :: p in ps && Allows(request, p)
  }

  /** Alone, a matching permission grants when it allows or says nothing, in any case of letters. */
  lemma GrantedAlone(request: Request, p: Permission)
    ensures Granted(request, {p}) <==> Lower(p.effect) in {"allow", ""} && Matches(request, p)
    ensures Lower(p.effect) == "deny" && Matches(request, p) ==> forall ps :: p in ps ==> !Granted(request, ps)
  {
    assert "allow" != "deny";
  }

  /** The platform's permissions always apply, those of a project when it or any is asked about. */
  lemma ApplicableIff(project: string, user: UserInfo, p: Permission)
    ensures p in Applicable(project, user) <==>
            || (user.platformPermissions.Some? && p in user.platformPermissions.value)
            || (user.projectPermissions.Some? && project == "?" &&
                exists k :: k in user.projectPermissions.value && p in user.projectPermissions.value[k])
            || (user.projectPermissions.Some? && project != "" && project in user.projectPermissions.value &&
                p in user.projectPermissions.value[project])
  {
  }

  method Collect(project: string, user: UserInfo) returns (ps: seq<Permission>)
    ensures (set p | p in ps) == Applicable(project, user)
  {
    ps := if user.platformPermissions.Some? then user.platformPermissions.value else [];
    if project != "" && user.projectPermissions.Some? {
      var byProject := user.projectPermissions.value;
      if project == "?" {
        var platform := ps;
        var rest := byProject.Keys;
        while rest != {}
          invariant rest <= byProject.Keys
          invariant forall p :: p in ps <==>
                      p in platform || exists k :: k in byProject && k !in rest && p in byProject[k]
          decreases rest
        {
          var k :| k in rest;
          ps := ps + byProject[k];
          rest := rest - {k};
        }
      } else if project in byProject {
        ps := ps + byProject[project];
      }
    }
  }

  datatype Answer = Granting(yes: bool) | Thrown

  /** What every object has besides its own keys; none of it is a permission. */
  const INHERITED: set<string> := {
    "constructor", "hasOwnProperty", "isPrototypeOf", "propertyIsEnumerable", "toLocaleString", "toString", "valueOf",
    "__proto__", "__defineGetter__", "__defineSetter__", "__lookupGetter__", "__lookupSetter__"
  }

  /** The project is not one of the user's, yet looking it up finds something. */
  predicate FindsInherited(project: string, user: UserInfo) {
    user.projectPermissions.Some? && project in INHERITED && project !in user.projectPermissions.value
  }

  ghost predicate PlatformDenies(request: Request, user: UserInfo) {
    user.platformPermissions.Some? && SomeDenies(request, user.platformPermissions.value)
  }

  /** Deny over allow on the applicable permissions; looking up an inherited name throws unless a
      platform permission denies first. */
  ghost function Answered(request: Option<Request>, project: string, userInfo: Option<UserInfo>): Answer {
    if request.None? then Granting(true)
    else if userInfo.None? then Granting(false)
    else if FindsInherited(project, userInfo.value) then
      if PlatformDenies(request.value, userInfo.value) then Granting(false) else Thrown
    else Granting(Granted(request.value, Applicable(project, userInfo.value)))
  }

  /** Asked about a project named like something every object has, a user with project permissions but
      none for it gets an error, or a refusal where a platform permission denies. */
  lemma InheritedNameThrows(request: Request, name: string, platform: seq<Permission>)
    requires name in {"constructor", "hasOwnProperty", "isPrototypeOf", "propertyIsEnumerable", "toLocaleString", "toString",
                      "valueOf", "__proto__", "__defineGetter__", "__defineSetter__", "__lookupGetter__", "__lookupSetter__"}
    ensures Answered(Some(request), name, Some(UserInfo(None, Some(map[])))) == Thrown
    ensures Answered(Some(request), name, Some(UserInfo(Some(platform), Some(map[])))) ==
            if exists p :: p in platform && Lower(p.effect) == "deny" && Matches(request, p) then Granting(false) else Thrown
  {
  }

  method CheckPermission(request: Option<Request>, project: string, userInfo: Option<UserInfo>) returns (r: Answer)
    ensures r == Answered(request, project, userInfo)
    ensures request.None? ==> r == Granting(true)
    ensures request.Some? && userInfo.None? ==> r == Granting(false)
    ensures request.Some? && userInfo.Some? && project == "" ==>
              r == Granting(Granted(request.value, Applicable("", userInfo.value)))
  {
    if request.None? {
      return Granting(true);
    }
    if userInfo.None? {
      return Granting(false);
    }
    if FindsInherited(project, userInfo.value) {
      var platform := if userInfo.value.platformPermissions.Some? then userInfo.value.platformPermissions.value else [];
      var denied := AnyDenies(request.value, platform);
      return if denied then Granting(false) else Thrown;
    }
    hide FindsInherited;
    var yes := CheckApplicable(request.value, project, userInfo.value);
    return Granting(yes);
  }

  method CheckApplicable(request: Request, project: string, user: UserInfo) returns (r: bool)
    ensures r <==> Granted(request, Applicable(project, user))
  {
    ghost var applicable := Applicable(project, user);
    if user.platformPermissions.None? && user.projectPermissions.None? {
      assert applicable == {};
      return false;
    }
    if project == "" && (user.platformPermissions.None? || |user.platformPermissions.value| == 0) {
      assert applicable == {};
      return false;
    }
    var ps := Collect(project, user);
    assert forall p :: p in ps <==> p in applicable;
    var denied := AnyDenies(request, ps);
    if denied {
      return false;
    }
    r := AnyAllows(request, ps);
  }

  method IsDeny(request: Request, p: Permission) returns (r: bool)
    ensures r <==> Denies(request, p)
  {
    var effect := Lower(p.effect);
    if effect != "deny" {
      return false;
    }
    r := Match(request, p);
  }

  method IsAllow(request: Request, p: Permission) returns (r: bool)
    ensures r <==> Allows(request, p)
  {
    var effect := Lower(p.effect);
    if effect != "allow" && effect != "" {
      return false;
    }
    r := Match(request, p);
  }

  ghost predicate SomeDenies(request: Request, ps: seq<Permission>) {
    exists p :: p in ps && Denies(request, p)
  }

  ghost predicate SomeAllows(request: Request, ps: seq<Permission>) {
    exists p :: p in ps && Allows(request, p)
  }

  method AnyDenies(request: Request, ps: seq<Permission>) returns (r: bool)
    ensures r <==> SomeDenies(request, ps)
  {
    for i := 0 to |ps|
      invariant !SomeDenies(request, ps[..i])
    {
      assert ps[..i + 1] == ps[..i] + [ps[i]];
      var hit := IsDeny(request, ps[i]);
      if hit {
        assert ps[i] in ps;
        return true;
      }
    }
    assert ps[..|ps|] == ps;
    return false;
  }

  method AnyAllows(request: Request, ps: seq<Permission>) returns (r: bool)
    ensures r <==> SomeAllows(request, ps)
  {
    for i := 0 to |ps|
      invariant !SomeAllows(request, ps[..i])
    {
      assert ps[..i + 1] == ps[..i] + [ps[i]];
      var hit := IsAllow(request, ps[i]);
      if hit {
        assert ps[i] in ps;
        return true;
      }
    }
    assert ps[..|ps|] == ps;
    return false;
  }

  /** More permissions of one effect move the answer one way only: an allow never revokes, a
      deny never grants. */
  lemma MonotoneInEffects(request: Request, ps: set<Permission>, p: Permission)
    ensures Lower(p.effect) != "deny" && Granted(request, ps) ==> Granted(request, ps + {p})
    ensures Lower(p.effect) != "allow" && Lower(p.effect) != "" && Granted(request, ps + {p}) ==> Granted(request, ps)
  {
    if Granted(request, ps) {
      var q :| q in ps && Allows(request, q);
      assert q in ps + {p};
    }
    if Granted(request, ps + {p}) {
      assert forall q :: q in ps ==> q in ps + {p};
    }
  }

  /** A permission that matches a request matches every narrower one. */
  lemma NarrowerRequestStillMatches(wide: Request, narrow: Request, p: Permission)
    requires Matches(wide, p) && wide.action == narrow.action
    requires Covers(Some(Parse(wide.resource)), Some(Parse(narrow.resource)))
    ensures Matches(narrow, p)
  {
    var res :| res in p.resources.value && Covers(Some(Parse(res)), Some(Parse(wide.resource)));
    CoversTransitive(Some(Parse(res)), Some(Parse(wide.resource)), Some(Parse(narrow.resource)));
  }
}
