/** Patching a generated form schema with a customised one, level by level. */
module UISchema {
  import opened Options

  /** Everything a parameter has besides its key and its sub-parameters. A text counts as set when
      it is not empty, the position when it is not zero. */
  datatype Fields = Fields(
    description: string, title: string, uiType: string, sort: int,
    groupOption: Option<string>, validate: Option<string>, disable: Option<bool>,
    additional: Option<bool>, style: Option<string>, conditions: Option<string>)

  datatype Param = Param(key: string, fields: Fields, subs: Subs)

  datatype Subs = NoSubs | Subs(list: seq<Param>)

  function OrElse<T>(c: Option<T>, d: Option<T>): Option<T> {
    if c.Some? then c else d
  }

  /** Each field from the custom schema when set there, otherwise from the default. */
  function MergeFields(d: Fields, c: Fields): Fields {
    Fields(
      if c.description != "" then c.description else d.description,
      if c.title != "" then c.title else d.title,
      if c.uiType != "" then c.uiType else d.uiType,
      if c.sort != 0 then c.sort else d.sort,
      OrElse(c.groupOption, d.groupOption), OrElse(c.validate, d.validate), OrElse(c.disable, d.disable),
      OrElse(c.additional, d.additional), OrElse(c.style, d.style), OrElse(c.conditions, d.conditions))
  }

  // ---------------------------------------------------------------- sorting

  predicate Sorted(ps: seq<Param>) {
    forall i, j :: 0 <= i < j < |ps| ==> ps[i].fields.sort <= ps[j].fields.sort
  }

  function Insert(p: Param, ps: seq<Param>): (r: seq<Param>)
    requires Sorted(ps)
    ensures Sorted(r) && multiset(r) == multiset{p} + multiset(ps)
  {
    if ps == [] then [p]
    else if p.fields.sort <= ps[0].fields.sort then [p] + ps
    else
      var r := Insert(p, ps[1..]);
      SortedCons(ps[0], p, ps[1..], r);
      assert ps == [ps[0]] + ps[1..];
      [ps[0]] + r
  }

  lemma SortedCons(first: Param, p: Param, rest: seq<Param>, r: seq<Param>)
    requires Sorted(r) && multiset(r) == multiset{p} + multiset(rest)
    requires first.fields.sort <= p.fields.sort && forall i :: 0 <= i < |rest| ==> first.fields.sort <= rest[i].fields.sort
    ensures Sorted([first] + r)
  {
    forall i | 0 <= i < |r|
      ensures first.fields.sort <= r[i].fields.sort
    {
      assert r[i] in multiset(r);
    }
  }

  function SortParams(ps: seq<Param>): (r: seq<Param>)
    ensures Sorted(r) && multiset(r) == multiset(ps)
  {
    if ps == [] then []
    else
      assert ps == [ps[0]] + ps[1..];
      Insert(ps[0], SortParams(ps[1..]))
  }

  // ---------------------------------------------------------------- patching

  /** The custom parameter of a key; a later one replaces an earlier one. */
  function Find(c: seq<Param>, key: string): Option<Param> {
    if c == [] then None
    else if c[|c| - 1].key == key then Some(c[|c| - 1])
    else Find(c[..|c| - 1], key)
  }

  function MergeParam(p: Param, c: seq<Param>): Param
    decreases p, 1
  {
    match Find(c, p.key)
    case None => p
    case Some(cp) =>
      Param(p.key, MergeFields(p.fields, cp.fields),
            if cp.subs.NoSubs? then p.subs
            else if p.subs.NoSubs? then cp.subs
            else Subs(Patch(p.subs.list, cp.subs.list)))
  }

  function MergeAll(d: seq<Param>, c: seq<Param>): (r: seq<Param>)
    ensures |r| == |d|
    decreases d, 0
  {
    if d == [] then [] else [MergeParam(d[0], c)] + MergeAll(d[1..], c)
  }

  /** An empty default gives way to the custom schema as a whole. */
  function Patch(d: seq<Param>, c: seq<Param>): (r: seq<Param>)
    ensures d != [] ==> Sorted(r)
    decreases d, 1
  {
    if d == [] then c else SortParams(MergeAll(d, c))
  }

  method IndexCustom(c: seq<Param>) returns (m: map<string, Param>)
    ensures forall k :: (if k in m then Some(m[k]) else None) == Find(c, k)
  {
    m := map[];
    for i := 0 to |c|
      invariant forall k :: (if k in m then Some(m[k]) else None) == Find(c[..i], k)
    {
      assert c[..i + 1][..i] == c[..i];
      m := m[c[i].key := c[i]];
    }
    assert c[..|c|] == c;
  }

  lemma {:induction false} MergeAllAt(d: seq<Param>, c: seq<Param>, i: nat)
    requires i < |d|
    ensures MergeAll(d, c)[i] == MergeParam(d[i], c)
  {
    if i > 0 {
      MergeAllAt(d[1..], c, i - 1);
    }
  }

  method PatchSchema(d: seq<Param>, c: seq<Param>) returns (r: seq<Param>)
    ensures r == Patch(d, c)
    decreases d, 1
  {
    var custom := IndexCustom(c);
    if |d| == 0 {
      return c;
    }
    r := d;
    for i := 0 to |d|
      invariant |r| == |d|
      invariant forall j :: 0 <= j < i ==> r[j] == MergeParam(d[j], c)
      invariant forall j :: i <= j < |d| ==> r[j] == d[j]
    {
      var p := d[i];
      assert (if p.key in custom then Some(custom[p.key]) else None) == Find(c, p.key);
      if p.key in custom {
        var cp := custom[p.key];
        var fields := MergeFields(p.fields, cp.fields);
        var subs := p.subs;
        if cp.subs.Subs? {
          if p.subs.Subs? {
            var patched := PatchSchema(p.subs.list, cp.subs.list);
            subs := Subs(patched);
          } else {
            subs := cp.subs;
          }
        }
        r := r[i := Param(p.key, fields, subs)];
      }
    }
    forall j | 0 <= j < |d|
      ensures r[j] == MergeAll(d, c)[j]
    {
      MergeAllAt(d, c, j);
    }
    assert r == MergeAll(d, c);
    r := SortParams(r);
  }

  // ---------------------------------------------------------------- without sibling order

  /** A schema without the order of its siblings. */
  datatype Tree = Tree(fields: Fields, subs: Level)

  datatype Level = NoLevel | Level(trees: map<string, Tree>)

  function CanonParam(p: Param): Tree
    decreases p, 1
  {
    Tree(p.fields, if p.subs.NoSubs? then NoLevel else Level(Canon(p.subs.list)))
  }

  function Canon(ps: seq<Param>): map<string, Tree>
    decreases ps, 0
  {
    if ps == [] then map[]
    else Canon(ps[1..])[ps[0].key := CanonParam(ps[0])]
  }

  predicate DistinctKeys(ps: seq<Param>)
    decreases ps
  {
    && (forall i, j :: 0 <= i < j < |ps| ==> ps[i].key != ps[j].key)
    && (forall i :: 0 <= i < |ps| ==> ps[i].subs.Subs? ==> DistinctKeys(ps[i].subs.list))
  }

  /** Patching without order: a non-empty default keeps exactly its keys. */
  function MergeLevels(d: Level, c: Level): Level {
    if c.NoLevel? then d
    else if d.NoLevel? || d.trees == map[] then c
    else Level(map k | k in d.trees :: if k in c.trees then MergeTree(d.trees[k], c.trees[k]) else d.trees[k])
  }

  ghost predicate Overlaid(d: map<string, Tree>, c: map<string, Tree>, m: map<string, Tree>) {
    && m.Keys == d.Keys
    && forall k :: k in d ==> m[k] == if k in c then MergeTree(d[k], c[k]) else d[k]
  }

  lemma OverlaidIsMerge(d: map<string, Tree>, c: map<string, Tree>, m: map<string, Tree>)
    requires Overlaid(d, c, m) && d != map[]
    ensures Level(m) == MergeLevels(Level(d), Level(c))
  {
    assert m == MergeLevels(Level(d), Level(c)).trees;
  }

  function MergeTree(d: Tree, c: Tree): Tree {
    Tree(MergeFields(d.fields, c.fields), MergeLevels(d.subs, c.subs))
  }

  lemma {:induction false} CanonHolds(ps: seq<Param>, k: string)
    ensures k in Canon(ps) <==> exists i :: 0 <= i < |ps| && ps[i].key == k
    ensures DistinctKeys(ps) ==> forall i :: 0 <= i < |ps| && ps[i].key == k ==> Canon(ps)[k] == CanonParam(ps[i])
  {
    if ps != [] {
      CanonHolds(ps[1..], k);
      assert forall i :: 0 < i < |ps| ==> ps[i] == ps[1..][i - 1];
    }
  }

  lemma CanonAt(ps: seq<Param>, p: Param)
    requires DistinctKeys(ps) && p in ps
    ensures p.key in Canon(ps) && Canon(ps)[p.key] == CanonParam(p)
  {
    var i :| 0 <= i < |ps| && ps[i] == p;
    CanonHolds(ps, p.key);
  }

  lemma CanonKey(ps: seq<Param>, k: string) returns (p: Param)
    requires k in Canon(ps)
    ensures p in ps && p.key == k
  {
    CanonHolds(ps, k);
    var i :| 0 <= i < |ps| && ps[i].key == k;
    p := ps[i];
  }

  /** The order of siblings does not matter to the form without order. */
  lemma CanonPermuted(a: seq<Param>, b: seq<Param>)
    requires multiset(a) == multiset(b) && DistinctKeys(a) && DistinctKeys(b)
    ensures Canon(a) == Canon(b)
  {
    assert forall p :: p in a <==> p in multiset(a);
    assert forall p :: p in b <==> p in multiset(b);
    forall k | k in Canon(a)
      ensures k in Canon(b) && Canon(a)[k] == Canon(b)[k]
    {
      var p := CanonKey(a, k);
      CanonAt(a, p);
      CanonAt(b, p);
    }
    forall k | k in Canon(b)
      ensures k in Canon(a)
    {
      var p := CanonKey(b, k);
      CanonAt(a, p);
    }
  }

  // ---------------------------------------------------------------- distinct keys stay distinct

  ghost predicate Lacks(ps: seq<Param>, k: string) {
    forall q :: q in ps ==> q.key != k
  }

  ghost predicate SubsDistinct(p: Param) {
    p.subs.Subs? ==> DistinctKeys(p.subs.list)
  }

  lemma DistinctCons(p: Param, ps: seq<Param>)
    requires DistinctKeys(ps) && Lacks(ps, p.key) && SubsDistinct(p)
    ensures DistinctKeys([p] + ps)
  {
    var r := [p] + ps;
    assert forall i :: 0 < i < |r| ==> r[i] == ps[i - 1];
  }

  lemma DistinctTail(ps: seq<Param>)
    requires DistinctKeys(ps) && ps != []
    ensures DistinctKeys(ps[1..]) && Lacks(ps[1..], ps[0].key) && SubsDistinct(ps[0])
  {
    assert forall i :: 0 <= i < |ps| - 1 ==> ps[1..][i] == ps[i + 1];
  }

  lemma {:induction false} InsertDistinct(p: Param, ps: seq<Param>)
    requires Sorted(ps) && DistinctKeys(ps) && Lacks(ps, p.key) && SubsDistinct(p)
    ensures DistinctKeys(Insert(p, ps))
  {
    if ps == [] {
      DistinctCons(p, []);
      assert [p] + [] == [p];
    } else if p.fields.sort <= ps[0].fields.sort {
      DistinctCons(p, ps);
    } else {
      DistinctTail(ps);
      InsertDistinct(p, ps[1..]);
      var r := Insert(p, ps[1..]);
      assert forall q :: q in r ==> q in multiset(r);
      assert ps[0] in ps;
      DistinctCons(ps[0], r);
    }
  }

  lemma {:induction false} SortDistinct(ps: seq<Param>)
    requires DistinctKeys(ps)
    ensures DistinctKeys(SortParams(ps))
  {
    if ps != [] {
      DistinctTail(ps);
      SortDistinct(ps[1..]);
      var r := SortParams(ps[1..]);
      assert forall q :: q in r ==> q in multiset(r);
      InsertDistinct(ps[0], r);
    }
  }

  lemma {:induction false} FindIn(c: seq<Param>, k: string)
    ensures Find(c, k).Some? ==> Find(c, k).value in c && Find(c, k).value.key == k
    ensures Find(c, k).None? ==> Lacks(c, k)
  {
    if c != [] {
      FindIn(c[..|c| - 1], k);
      assert c == c[..|c| - 1] + [c[|c| - 1]];
    }
  }

  lemma {:induction false} MergeParamDistinct(p: Param, c: seq<Param>)
    requires SubsDistinct(p) && DistinctKeys(c)
    ensures MergeParam(p, c).key == p.key && SubsDistinct(MergeParam(p, c))
    decreases p, 1
  {
    FindIn(c, p.key);
    if Find(c, p.key).Some? {
      var cp := Find(c, p.key).value;
      assert SubsDistinct(cp) by {
        var i :| 0 <= i < |c| && c[i] == cp;
      }
      if p.subs.Subs? && cp.subs.Subs? {
        PatchDistinct(p.subs.list, cp.subs.list);
      }
    }
  }

  lemma {:induction false} MergeAllDistinct(d: seq<Param>, c: seq<Param>)
    requires DistinctKeys(d) && DistinctKeys(c)
    ensures DistinctKeys(MergeAll(d, c))
    ensures forall q :: q in MergeAll(d, c) ==> !Lacks(d, q.key)
    decreases d, 0
  {
    if d != [] {
      DistinctTail(d);
      MergeParamDistinct(d[0], c);
      MergeAllDistinct(d[1..], c);
      forall q | q in MergeAll(d[1..], c)
        ensures !Lacks(d, q.key) && q.key != d[0].key
      {
        var w :| w in d[1..] && w.key == q.key;
        assert w in d;
      }
      assert d[0] in d;
      DistinctCons(MergeParam(d[0], c), MergeAll(d[1..], c));
    }
  }

  /** Patching keeps keys distinct on every level. */
  lemma {:induction false} PatchDistinct(d: seq<Param>, c: seq<Param>)
    requires DistinctKeys(d) && DistinctKeys(c)
    ensures DistinctKeys(Patch(d, c))
    decreases d, 1
  {
    if d != [] {
      MergeAllDistinct(d, c);
      SortDistinct(MergeAll(d, c));
    }
  }

  // ---------------------------------------------------------------- the reference form

  lemma CanonFind(c: seq<Param>, k: string)
    requires DistinctKeys(c)
    ensures Find(c, k).Some? <==> k in Canon(c)
    ensures Find(c, k).Some? ==> Canon(c)[k] == CanonParam(Find(c, k).value) && SubsDistinct(Find(c, k).value)
  {
    FindIn(c, k);
    if Find(c, k).Some? {
      CanonAt(c, Find(c, k).value);
      var i :| 0 <= i < |c| && c[i] == Find(c, k).value;
    } else if k in Canon(c) {
      var p := CanonKey(c, k);
    }
  }

  lemma CanonEmpty(ps: seq<Param>)
    ensures Canon(ps) == map[] <==> ps == []
  {
    if ps != [] {
      assert ps[0].key in Canon(ps);
    }
  }

  lemma {:induction false} MergeParamCanon(p: Param, c: seq<Param>)
    requires SubsDistinct(p) && DistinctKeys(c)
    ensures CanonParam(MergeParam(p, c)) ==
            if p.key in Canon(c) then MergeTree(CanonParam(p), Canon(c)[p.key]) else CanonParam(p)
    decreases p, 1
  {
    CanonFind(c, p.key);
    if Find(c, p.key).Some? {
      var cp := Find(c, p.key).value;
      if p.subs.Subs? && cp.subs.Subs? {
        PatchCanon(p.subs.list, cp.subs.list);
      }
    }
  }

  lemma {:induction false} MergeAllCanon(d: seq<Param>, c: seq<Param>)
    requires DistinctKeys(d) && DistinctKeys(c)
    ensures Overlaid(Canon(d), Canon(c), Canon(MergeAll(d, c)))
    decreases d, 0
  {
    if d != [] {
      DistinctTail(d);
      MergeParamDistinct(d[0], c);
      MergeParamCanon(d[0], c);
      MergeAllCanon(d[1..], c);
      var m := MergeAll(d, c);
      assert m[0] == MergeParam(d[0], c) && m[1..] == MergeAll(d[1..], c);
      assert Canon(m) == Canon(m[1..])[d[0].key := CanonParam(m[0])];
    }
  }

  /** Up to the order of siblings, patching is the merge of the unordered forms: a level with a
      default keeps exactly the default's keys, takes each field from the custom schema when set
      there and otherwise from the default, and a level without a default is the custom one. */
  lemma {:induction false} PatchCanon(d: seq<Param>, c: seq<Param>)
    requires DistinctKeys(d) && DistinctKeys(c)
    ensures Level(Canon(Patch(d, c))) == MergeLevels(Level(Canon(d)), Level(Canon(c)))
    decreases d, 1
  {
    CanonEmpty(d);
    if d != [] {
      MergeAllCanon(d, c);
      MergeAllDistinct(d, c);
      SortDistinct(MergeAll(d, c));
      CanonPermuted(SortParams(MergeAll(d, c)), MergeAll(d, c));
      OverlaidIsMerge(Canon(d), Canon(c), Canon(MergeAll(d, c)));
    }
  }

  // ---------------------------------------------------------------- idempotence

  lemma {:induction false} MergeSelf(c: Level)
    ensures MergeLevels(c, c) == c
  {
    if c.Level? {
      forall k | k in c.trees
        ensures MergeTree(c.trees[k], c.trees[k]) == c.trees[k]
      {
        MergeSelf(c.trees[k].subs);
      }
    }
  }

  lemma {:induction false} MergeAgain(d: Level, c: Level)
    ensures MergeLevels(MergeLevels(d, c), c) == MergeLevels(d, c)
  {
    if c.NoLevel? {
    } else if d.NoLevel? || d.trees == map[] {
      MergeSelf(c);
    } else {
      var m := MergeLevels(d, c).trees;
      assert m.Keys == d.trees.Keys;
      assert m != map[] by {
        var k :| k in d.trees;
        assert k in m;
      }
      forall k | k in d.trees && k in c.trees
        ensures MergeTree(m[k], c.trees[k]) == m[k]
      {
        assert m[k] == MergeTree(d.trees[k], c.trees[k]);
        MergeAgain(d.trees[k].subs, c.trees[k].subs);
      }
    }
  }

  /** Patching a patched schema again changes at most the order of siblings. */
  lemma PatchIdempotent(d: seq<Param>, c: seq<Param>)
    requires DistinctKeys(d) && DistinctKeys(c)
    ensures Canon(Patch(Patch(d, c), c)) == Canon(Patch(d, c))
  {
    PatchDistinct(d, c);
    PatchCanon(d, c);
    PatchCanon(Patch(d, c), c);
    MergeAgain(Level(Canon(d)), Level(Canon(c)));
  }

  // ---------------------------------------------------------------- parameter by parameter

  /** A later custom parameter of a key replaces an earlier one. */
  lemma FindLast(c: seq<Param>, x: Param, key: string)
    ensures Find(c + [x], key) == if key == x.key then Some(x) else Find(c, key)
  {
    assert (c + [x])[..|c|] == c;
  }

  /** What a patched parameter has, field by field: the custom value where it is set. */
  lemma FieldsTaken(d: Fields, c: Fields)
    ensures
      var m := MergeFields(d, c);
      && m.description == (if c.description == "" then d.description else c.description)
      && m.title == (if c.title == "" then d.title else c.title)
      && m.uiType == (if c.uiType == "" then d.uiType else c.uiType)
      && m.sort == (if c.sort == 0 then d.sort else c.sort)
      && (c.groupOption.Some? ==> m.groupOption == c.groupOption) && (c.groupOption.None? ==> m.groupOption == d.groupOption)
      && (c.validate.Some? ==> m.validate == c.validate) && (c.validate.None? ==> m.validate == d.validate)
      && (c.disable.Some? ==> m.disable == c.disable) && (c.disable.None? ==> m.disable == d.disable)
      && (c.additional.Some? ==> m.additional == c.additional) && (c.additional.None? ==> m.additional == d.additional)
      && (c.style.Some? ==> m.style == c.style) && (c.style.None? ==> m.style == d.style)
      && (c.conditions.Some? ==> m.conditions == c.conditions) && (c.conditions.None? ==> m.conditions == d.conditions)
  {
  }

  /** Without a default the custom schema is taken as it is, and without a custom one nothing but the
      order of siblings changes. */
  lemma PatchOneSided(d: seq<Param>, c: seq<Param>)
    ensures Patch([], c) == c && multiset(Patch(d, [])) == multiset(d)
  {
    forall i | 0 <= i < |d|
      ensures MergeAll(d, [])[i] == d[i]
    {
      MergeAllAt(d, [], i);
    }
    assert MergeAll(d, []) == d;
  }

  /** The parameter a patch gives for a default one: itself where there is no custom one; else the
      merged fields, and below it the custom level where there is no default, the default level
      where there is no custom, and the patched level where there are both. */
  lemma PatchGives(d: seq<Param>, c: seq<Param>, p: Param)
    requires DistinctKeys(d) && p in d
    ensures exists q :: q in Patch(d, c) && q.key == p.key
    ensures forall q :: q in Patch(d, c) && q.key == p.key ==>
              match Find(c, p.key)
              case None => q == p
              case Some(cp) =>
                && q.fields == MergeFields(p.fields, cp.fields)
                && (cp.subs.NoSubs? ==> q.subs == p.subs)
                && (cp.subs.Subs? && (p.subs.NoSubs? || p.subs.list == []) ==> q.subs == cp.subs)
                && (cp.subs.Subs? && p.subs.Subs? && p.subs.list != [] ==> q.subs == Subs(Patch(p.subs.list, cp.subs.list)))
  {
    var r := Patch(d, c);
    var i :| 0 <= i < |d| && d[i] == p;
    MergeAllAt(d, c, i);
    assert MergeAll(d, c)[i] in multiset(MergeAll(d, c)) && MergeAll(d, c)[i] in multiset(r);
    forall q | q in r && q.key == p.key
      ensures q == MergeParam(p, c)
    {
      assert q in multiset(r) && q in multiset(MergeAll(d, c));
      var k := MergedFrom(d, c, q);
      assert MergeParam(d[k], c).key == d[k].key;
      assert k == i;
    }
  }

  // ---------------------------------------------------------------- nested levels are sorted

  /** A patched level with a default is sorted, and so is every level below it that was patched with
      a default. */
  predicate LevelsSorted(d: seq<Param>, c: seq<Param>, r: seq<Param>)
    decreases d
  {
    d != [] ==>
      && Sorted(r)
      && forall i, j :: 0 <= i < |d| && 0 <= j < |r| && d[i].key == r[j].key && PatchedBelow(d[i], c) ==>
           r[j].subs.Subs? && LevelsSorted(d[i].subs.list, Find(c, d[i].key).value.subs.list, r[j].subs.list)
  }

  /** Both schemas have parameters below this one. */
  predicate PatchedBelow(p: Param, c: seq<Param>) {
    p.subs.Subs? && Find(c, p.key).Some? && Find(c, p.key).value.subs.Subs?
  }

  lemma {:induction false} MergedFrom(d: seq<Param>, c: seq<Param>, q: Param) returns (i: nat)
    requires q in MergeAll(d, c)
    ensures i < |d| && q == MergeParam(d[i], c)
  {
    var k :| 0 <= k < |MergeAll(d, c)| && MergeAll(d, c)[k] == q;
    MergeAllAt(d, c, k);
    i := k;
  }

  /** Every patched level with a default is sorted. */
  lemma {:induction false} PatchSortsLevels(d: seq<Param>, c: seq<Param>)
    requires DistinctKeys(d)
    ensures LevelsSorted(d, c, Patch(d, c))
    decreases d
  {
    if d != [] {
      var r := Patch(d, c);
      forall i, j | 0 <= i < |d| && 0 <= j < |r| && d[i].key == r[j].key && PatchedBelow(d[i], c)
        ensures r[j].subs.Subs? && LevelsSorted(d[i].subs.list, Find(c, d[i].key).value.subs.list, r[j].subs.list)
      {
        assert r[j] in multiset(r) && r[j] in multiset(MergeAll(d, c));
        var k := MergedFrom(d, c, r[j]);
        assert k == i;
        PatchSortsLevels(d[i].subs.list, Find(c, d[i].key).value.subs.list);
      }
    }
  }
}
