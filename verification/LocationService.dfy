/** The browser location with its query parameters, and their partial update. */
module LocationService {
  import opened QueryString

  predicate Removing(v: Value) {
    v == One(Null) || v == One(Undefined)
  }

  /** The old parameters overridden by the given ones, without those given as null. */
  function Override(before: QueryMap, query: QueryMap): QueryMap {
    map k | k in before.Keys + query.Keys && !(k in query && Removing(query[k])) ::
      if k in query then query[k] else before[k]
  }

  /** Overriding a map of the codec's domain with values of the domain, or nulls, stays within it. */
  lemma OverrideStaysInDomain(before: QueryMap, query: QueryMap)
    requires InDomain(before) && Defined(before)
    requires forall k :: k in query ==> Removing(query[k]) || (GoodKey(k) && NoObjectText(k, query[k]) && Survives(query[k]))
    ensures InDomain(Override(before, query)) && Defined(Override(before, query))
    ensures forall k :: k in Override(before, query) <==> if k in query then !Removing(query[k]) else k in before
  {
  }

  function SearchObject(search: string): Outcome {
    if search == "" then Parsed(map[]) else if search[0] == '?' then Parse(search[1..]) else Parse(search)
  }

  method ListKeys(m: QueryMap) returns (order: seq<string>)
    ensures Enumerates(order, m)
  {
    order := [];
    var rest := m.Keys;
    while rest != {}
      invariant rest <= m.Keys
      invariant forall i, j :: 0 <= i < j < |order| ==> order[i] != order[j]
      invariant forall k :: k in order <==> k in m && k !in rest
      decreases rest
    {
      var k :| k in rest;
      order := order + [k];
      rest := rest - {k};
    }
  }

  // ---------------------------------------------------------------- urls

  /** The path and search part of a url; a lone question mark is no search. */
  function ParsePath(url: string): (string, string) {
    var h := IndexOf(url, '#');
    var u := if h == -1 then url else url[..h];
    var q := IndexOf(u, '?');
    if q == -1 then (u, "") else (u[..q], if u[q..] == "?" then "" else u[q..])
  }

  lemma ParsePathPlain(path: string)
    requires '?' !in path && '#' !in path
    ensures ParsePath(path) == (path, "")
  {
  }

  lemma ParsePathQuery(path: string, query: string)
    requires '?' !in path && '#' !in path && '#' !in query
    ensures ParsePath(path + "?" + query) == (path, if query == "" then "" else "?" + query)
  {
    var url := path + "?" + query;
    IndexOfFirst(path, '?', query);
    assert '#' !in url;
    assert url[..|path|] == path && url[|path|..] == "?" + query;
  }

  /** What follows a hash is no part of path or search. */
  lemma ParsePathHash(url: string, hash: string)
    requires '#' !in url
    ensures ParsePath(url + "#" + hash) == ParsePath(url)
  {
    var full := url + "#" + hash;
    IndexOfFirst(url, '#', hash);
    hide IndexOf;
    assert full[..|url|] == url;
  }

  lemma {:induction false} JoinAvoids(parts: seq<string>, c: char)
    requires c != '&' && forall p :: p in parts ==> c !in p
    ensures c !in Join(parts)
  {
    if |parts| > 1 {
      assert parts[0] in parts;
      JoinAvoids(parts[1..], c);
    }
  }

  lemma PrintedAvoidsHash(m: QueryMap, order: seq<string>)
    requires Enumerates(order, m) && "" !in m
    ensures '#' !in Join(Parts(m, order))
  {
    PartsFormed(m, order);
    JoinAvoids(Parts(m, order), '#');
  }

  // ---------------------------------------------------------------- the service

  /** A history entry: where it is and the state that goes with it. */
  datatype Location = Location(pathname: string, search: string, state: string)

  class HistoryWrapper {
    var entries: seq<Location>
    var index: nat

    ghost predicate Valid()
      reads this
    {
      index < |entries| && PlainPath(entries[index].pathname)
    }

    constructor (location: Location)
      requires PlainPath(location.pathname)
      ensures Valid() && entries == [location] && index == 0
    {
      entries, index := [location], 0;
    }

    function Current(): Location
      requires index < |entries|
      reads this
    {
      entries[index]
    }

    method GetSearchObject() returns (r: Outcome)
      requires Valid()
      ensures r == SearchObject(Current().search)
    {
      var search := Current().search;
      if search == "" {
        return Parsed(map[]);
      }
      if search[0] == '?' {
        r := ParseKeyValue(search[1..]);
      } else {
        r := ParseKeyValue(search);
      }
    }

    /** A push drops the entries ahead and adds one; a replacement changes the current entry alone. */
    method Go(url: string, state: string, replace: bool)
      requires Valid()
      modifies this
      ensures index < |entries| && Current() == Location(ParsePath(url).0, ParsePath(url).1, state)
      ensures entries[..index] == old(if replace then entries[..index] else entries[..index + 1])
      ensures entries[index + 1..] == old(if replace then entries[index + 1..] else [])
    {
      var location := Location(ParsePath(url).0, ParsePath(url).1, state);
      if replace {
        entries := entries[index := location];
      } else {
        entries, index := entries[..index + 1] + [location], index + 1;
      }
    }

    /** Overrides the parameters of the location, keeping its path and state. Reading the location
        again gives the overridden map exactly when each of its values is one a parse can produce. */
    method Partial(query: QueryMap, replace: bool) returns (ok: bool)
      requires Valid()
      modifies this
      ensures ok <==> old(SearchObject(Current().search)).Parsed?
      ensures !ok ==> entries == old(entries) && index == old(index)
      ensures
        ok ==>
          && index < |entries| && Current().state == old(Current().state)
          && entries[..index] == old(if replace then entries[..index] else entries[..index + 1])
          && entries[index + 1..] == old(if replace then entries[index + 1..] else [])
      ensures
        ok ==>
          var after := Override(old(SearchObject(Current().search)).obj, query);
          InDomain(after) ==>
            && Valid() && Current().pathname == old(Current().pathname)
            && (SearchObject(Current().search) == Parsed(after) <==> Defined(after))
      ensures
        ok ==>
          var before, after := old(SearchObject(Current().search)).obj, Override(old(SearchObject(Current().search)).obj, query);
          InDomain(after) && Defined(after) ==>
            SearchObject(Current().search).Parsed? && Overrides(before, query, SearchObject(Current().search).obj)
    {
      hide Override, SearchObject, InDomain, Defined, Overrides;
      var current := GetSearchObject();
      if current.Thrown? {
        return false;
      }
      ok := true;
      var newQuery := Overridden(current.obj, query);
      var url := RenderUrl(Current().pathname, newQuery);
      Go(url, Current().state, replace);
    }
  }

  ghost predicate PlainPath(path: string) {
    '?' !in path && '#' !in path
  }

  /** The url of a path with parameters leads back to the path, and to the parameters exactly when
      each of their values is one a parse can produce. */
  method RenderUrl(path: string, query: QueryMap) returns (url: string)
    ensures
      PlainPath(path) && InDomain(query) ==>
        && ParsePath(url).0 == path
        && (SearchObject(ParsePath(url).1) == Parsed(query) <==> Defined(query))
  {
    if query == map[] {
      assert PlainPath(path) ==> ParsePath(path) == (path, "") by {
        if PlainPath(path) {
          ParsePathPlain(path);
        }
      }
      return path;
    }
    var order := ListKeys(query);
    var printed := ToUrlParams(query, order);
    if PlainPath(path) && InDomain(query) {
      RoundTripIff(query, order);
      PrintedAvoidsHash(query, order);
      ParsePathQuery(path, printed);
      assert Parse("") == Parsed(map[]) by {
        ParseJoined([]);
      }
      assert ("?" + printed)[1..] == printed;
    }
    url := path + "?" + printed;
  }

  /** A given value is taken, a null removes its key, and what is not given stays. */
  ghost predicate Overrides(before: QueryMap, query: QueryMap, after: QueryMap) {
    && (forall k :: k in query && query[k] != One(Null) && query[k] != One(Undefined) ==> k in after && after[k] == query[k])
    && (forall k :: k in query && (query[k] == One(Null) || query[k] == One(Undefined)) ==> k !in after)
    && (forall k :: k !in query ==> (k in after <==> k in before) && (k in before ==> after[k] == before[k]))
  }

  lemma OverrideOverrides(before: QueryMap, query: QueryMap)
    ensures Overrides(before, query, Override(before, query))
  {
  }

  method Overridden(before: QueryMap, query: QueryMap) returns (r: QueryMap)
    ensures r == Override(before, query) && Overrides(before, query, r)
  {
    hide Removing;
    r := before;
    var rest := query.Keys;
    while rest != {}
      invariant rest <= query.Keys
      invariant r == Override(before, map k | k in query && k !in rest :: query[k])
      decreases rest
    {
      var k :| k in rest;
      if Removing(query[k]) {
        r := r - {k};
      } else {
        r := r[k := query[k]];
      }
      rest := rest - {k};
    }
    assert (map k | k in query && k !in rest :: query[k]) == query;
    OverrideOverrides(before, query);
  }
}
