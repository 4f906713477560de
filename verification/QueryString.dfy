/** Printing a map of query values as a query string and parsing it back. */
module QueryString {
  import opened Options
  import opened PercentCoding

  // ---------------------------------------------------------------- values

  /** A single value; a number is given as it prints. */
  datatype Scalar = Text(text: string) | Number(digits: string) | Flag(on: bool) | Null | Undefined

  datatype Value = One(v: Scalar) | Many(vs: seq<Scalar>)

  type QueryMap = map<string, Value>

  // ---------------------------------------------------------------- splitting

  function IndexOf(s: string, c: char): (i: int)
    ensures -1 <= i < |s|
    ensures i >= 0 ==> s[i] == c && c !in s[..i]
    ensures i == -1 ==> c !in s
  {
    if s == [] then -1
    else if s[0] == c then 0
    else
      var i := IndexOf(s[1..], c);
      if i == -1 then -1 else
      assert s[..i + 1] == [s[0]] + s[1..][..i];
      i + 1
  }

  function Split(s: string): (r: seq<string>)
    ensures |r| >= 1
    decreases |s|
  {
    var i := IndexOf(s, '&');
    if i == -1 then [s] else [s[..i]] + Split(s[i + 1..])
  }

  function Join(parts: seq<string>): string {
    if parts == [] then "" else if |parts| == 1 then parts[0] else parts[0] + "&" + Join(parts[1..])
  }

  lemma IndexOfFirst(a: string, c: char, b: string)
    requires c !in a
    ensures IndexOf(a + [c] + b, c) == |a|
  {
    var s := a + [c] + b;
    assert s[|a|] == c;
    assert forall j :: 0 <= j < |a| ==> s[j] == a[j];
  }

  lemma SplitFirst(a: string, rest: string)
    requires '&' !in a
    ensures Split(a + "&" + rest) == [a] + Split(rest)
  {
    IndexOfFirst(a, '&', rest);
    hide IndexOf;
    var s := a + "&" + rest;
    assert s[..|a|] == a && s[|a| + 1..] == rest;
  }

  lemma SplitWhole(a: string)
    requires '&' !in a
    ensures Split(a) == [a]
  {
  }

  lemma {:induction false} SplitJoin(parts: seq<string>)
    requires parts != [] && forall p :: p in parts ==> '&' !in p
    ensures Split(Join(parts)) == parts
  {
    hide Split;
    assert parts[0] in parts && parts == [parts[0]] + parts[1..];
    if |parts| == 1 {
      SplitWhole(parts[0]);
    } else {
      SplitJoin(parts[1..]);
      SplitFirst(parts[0], Join(parts[1..]));
    }
  }

  // ---------------------------------------------------------------- printing

  const OBJECT := "[object Object]"

  function Digits(n: nat): string {
    if n < 10 then [('0' as int + n) as char] else Digits(n / 10) + [('0' as int + n % 10) as char]
  }

  function Add(k: string, v: Scalar): string {
    match v
    case Flag(on) => if on then EncodeQuery(k) else EncodeQuery(k) + "=" + EncodeQuery("false")
    case Text(t) => EncodeQuery(k) + "=" + EncodeQuery(t)
    case Number(t) => EncodeQuery(k) + "=" + EncodeQuery(t)
    case _ => EncodeQuery(k) + "=" + EncodeQuery("")
  }

  predicate Bracketed(k: string) {
    |k| >= 2 && k[|k| - 2..] == "[]"
  }

  /** A text that reads as an object is taken apart into its characters. */
  function Indexed(k: string, t: string, i: nat): seq<string>
    requires i <= |t|
    decreases |t| - i
  {
    if i == |t| then [] else [Add(k + "[" + Digits(i) + "]", Text([t[i]]))] + Indexed(k, t, i + 1)
  }

  function ScalarParts(k: string, v: Scalar): seq<string> {
    if v == Text(OBJECT) then Indexed(k, OBJECT, 0) else [Add(k, v)]
  }

  function ItemParts(k: string, v: Scalar): seq<string> {
    if Bracketed(k) then [Add(k, v)] else ScalarParts(k, v)
  }

  function ManyParts(k: string, vs: seq<Scalar>): seq<string> {
    if vs == [] then [] else ItemParts(k, vs[0]) + ManyParts(k, vs[1..])
  }

  /** An empty key is taken for no key: a text is printed character by character under its
      positions, and the items of a list lose their values. */
  function KeylessParts(v: Value): seq<string> {
    match v
    case One(Text(t)) => Positions(t, 0)
    case One(_) => []
    case Many(vs) => seq(|vs|, _ => "undefined=")
  }

  function Positions(t: string, i: nat): seq<string>
    requires i <= |t|
    decreases |t| - i
  {
    if i == |t| then [] else [Add(Digits(i), Text([t[i]]))] + Positions(t, i + 1)
  }

  function ValueParts(k: string, v: Value): seq<string> {
    if k == "" then KeylessParts(v)
    else match v
      case One(x) => ScalarParts(k, x)
      case Many(vs) => ManyParts(k, vs)
  }

  function Parts(m: QueryMap, order: seq<string>): seq<string>
    requires forall k :: k in order ==> k in m
  {
    if order == [] then [] else ValueParts(order[0], m[order[0]]) + Parts(m, order[1..])
  }

  /** The keys of the map, each once, in the order the map is enumerated in. */
  ghost predicate Enumerates(order: seq<string>, m: QueryMap) {
    && (forall i, j :: 0 <= i < j < |order| ==> order[i] != order[j])
    && (forall k :: k in order <==> k in m)
  }

  method BuildItems(k: string, vs: seq<Scalar>, s: seq<string>) returns (s': seq<string>)
    ensures s' == s + ManyParts(k, vs)
  {
    hide ItemParts;
    s' := s;
    for j := 0 to |vs|
      invariant s' + ManyParts(k, vs[j..]) == s + ManyParts(k, vs)
    {
      assert vs[j..][1..] == vs[j + 1..];
      s' := s' + ItemParts(k, vs[j]);
    }
    assert s' + [] == s';
  }

  method BuildParams(k: string, v: Value, s: seq<string>) returns (s': seq<string>)
    ensures s' == s + ValueParts(k, v)
  {
    if k != "" && v.Many? {
      s' := BuildItems(k, v.vs, s);
    } else {
      s' := s + ValueParts(k, v);
    }
  }

  method ToUrlParams(m: QueryMap, order: seq<string>) returns (r: string)
    requires Enumerates(order, m)
    ensures r == Join(Parts(m, order))
  {
    hide ValueParts, Join;
    var s: seq<string> := [];
    for i := 0 to |order|
      invariant s + Parts(m, order[i..]) == Parts(m, order)
    {
      assert order[i..][1..] == order[i + 1..];
      s := BuildParams(order[i], m[order[i]], s);
    }
    assert s + [] == s;
    r := Join(s);
  }

  // ---------------------------------------------------------------- parsing

  datatype Outcome = Parsed(obj: QueryMap) | Thrown

  function PlusToSpace(s: string): string {
    if s == [] then [] else (if s[0] == '+' then "%20" else [s[0]]) + PlusToSpace(s[1..])
  }

  /** The key and value one part gives, or None where the key cannot be decoded. */
  function ReadPart(part: string): Option<(string, Scalar)> {
    var p := PlusToSpace(part);
    var i := IndexOf(p, '=');
    var key := Decode(if i == -1 then p else p[..i]);
    if key.None? then None
    else if i == -1 then Some((key.value, Flag(true)))
    else
      var val := Decode(p[i + 1..]);
      Some((key.value, if val.Some? then Text(val.value) else Undefined))
  }

  function Normal(v: Scalar): Scalar {
    if v == Text("true") then Flag(true) else if v == Text("false") then Flag(false) else v
  }

  /** The first value of a key and the second are normalised, later ones are not. A key
      `hasOwnProperty` hides the method the parser calls; `__proto__` takes no plain value. */
  function Put(obj: QueryMap, k: string, v: Scalar): Outcome {
    if "hasOwnProperty" in obj then Thrown
    else if k == "__proto__" then Parsed(obj)
    else if k !in obj then Parsed(obj[k := One(Normal(v))])
    else if obj[k].Many? then Parsed(obj[k := Many(obj[k].vs + [v])])
    else Parsed(obj[k := Many([obj[k].v, Normal(v)])])
  }

  function ParsePart(obj: QueryMap, part: string): Outcome {
    if part == "" then Parsed(obj)
    else
      var kv := ReadPart(part);
      if kv.None? then Parsed(obj) else Put(obj, kv.value.0, kv.value.1)
  }

  function ParseParts(obj: QueryMap, parts: seq<string>): Outcome
    decreases |parts|
  {
    if parts == [] then Parsed(obj)
    else
      var o := ParsePart(obj, parts[0]);
      if o.Thrown? then Thrown else ParseParts(o.obj, parts[1..])
  }

  function Parse(s: string): Outcome {
    ParseParts(map[], Split(s))
  }

  method ParseKeyValue(s: string) returns (r: Outcome)
    ensures r == Parse(s)
  {
    hide ParsePart, Split;
    var parts := Split(s);
    var obj: QueryMap := map[];
    for i := 0 to |parts|
      invariant ParseParts(obj, parts[i..]) == Parse(s)
    {
      assert parts[i..][1..] == parts[i + 1..];
      var o := ParsePart(obj, parts[i]);
      if o.Thrown? {
        return Thrown;
      }
      obj := o.obj;
    }
    r := Parsed(obj);
  }

  // ---------------------------------------------------------------- what parsing gives, case by case

  /** A first value: "true" and "false" become booleans. A second: the two make a list, likewise. A
      further one is added as it is. */
  lemma PutCases(obj: QueryMap, k: string, v: Scalar)
    requires "hasOwnProperty" !in obj && k != "__proto__"
    ensures Put(obj, k, v).Parsed? && k in Put(obj, k, v).obj
    ensures forall j :: j != k ==> (j in Put(obj, k, v).obj <==> j in obj) && (j in obj ==> Put(obj, k, v).obj[j] == obj[j])
    ensures
      var w := if v == Text("true") then Flag(true) else if v == Text("false") then Flag(false) else v;
      Put(obj, k, v).obj[k] ==
        if k !in obj then One(w)
        else if obj[k].One? then Many([obj[k].v, w])
        else Many(obj[k].vs + [v])
  {
  }

  lemma PutThrows(obj: QueryMap, k: string, v: Scalar)
    ensures "hasOwnProperty" in obj ==> Put(obj, k, v) == Thrown
    ensures "hasOwnProperty" !in obj && k == "__proto__" ==> Put(obj, k, v) == Parsed(obj)
  {
  }

  /** What a part reads as: a key alone is true, a value that does not decode is undefined, and a part
      whose key does not decode is passed over. */
  lemma ReadPartCases(key: string, val: string)
    requires '=' !in key && '+' !in key && '+' !in val
    ensures ReadPart(key) == if Decode(key).None? then None else Some((Decode(key).value, Flag(true)))
    ensures ReadPart(key + "=" + val) ==
            if Decode(key).None? then None
            else if Decode(val).None? then Some((Decode(key).value, Undefined))
            else Some((Decode(key).value, Text(Decode(val).value)))
  {
    NoPlus(key);
    NoPlus(key + "=" + val);
    IndexOfFirst(key, '=', val);
    hide IndexOf, Decode, PlusToSpace;
    var part := key + "=" + val;
    assert part[..|key|] == key && part[|key| + 1..] == val;
  }

  lemma {:induction false} PlusConcat(a: string, b: string)
    ensures PlusToSpace(a + b) == PlusToSpace(a) + PlusToSpace(b)
  {
    if a == [] {
      assert a + b == b;
    } else {
      assert (a + b)[0] == a[0] && (a + b)[1..] == a[1..] + b;
      PlusConcat(a[1..], b);
    }
  }

  /** A plus sign stands for a space. */
  lemma PlusReadsAsSpace(k: string, a: string, b: string)
    requires k != ""
    ensures ReadPart(EncodeQuery(k) + "=" + EncodeQuery(a) + "+" + EncodeQuery(b)) == Some((k, Text(a + " " + b)))
  {
    var x, y, z := EncodeQuery(k), EncodeQuery(a), EncodeQuery(b);
    var w := EncodeQuery(a + " " + b);
    ReadPair(k, a + " " + b);
    assert w == y + "%20" + z by {
      EncodeQueryConcat(a + " ", b);
      EncodeQueryConcat(a, " ");
      SpaceEscaped();
    }
    EncodedHasNoPlus(k);
    EncodedHasNoPlus(a);
    EncodedHasNoPlus(b);
    hide EncodeQuery, ReadPart, PlusToSpace;
    var u := x + "=" + y;
    PlusBetween(u, z);
    Regroup(x + "=", y, "%20", z);
    assert '+' !in w;
    NoPlus(u + "%20" + z);
    SamePart(u + "+" + z, u + "%20" + z);
  }

  lemma EncodedHasNoPlus(s: string)
    ensures '+' !in EncodeQuery(s)
  {
    EncodeQueryIsSafe(s);
    SafeHas(EncodeQuery(s));
  }

  lemma Regroup(a: string, b: string, c: string, d: string)
    ensures a + (b + c + d) == a + b + c + d
  {
  }

  lemma PlusBetween(u: string, z: string)
    requires '+' !in u && '+' !in z
    ensures PlusToSpace(u + "+" + z) == u + "%20" + z
  {
    NoPlus(u);
    NoPlus(z);
    PlusIsSpace();
    PlusConcat(u + "+", z);
    PlusConcat(u, "+");
    hide PlusToSpace;
  }

  lemma PlusIsSpace()
    ensures PlusToSpace("+") == "%20"
  {
    assert "+"[1..] == [] && PlusToSpace("+") == "%20" + PlusToSpace([]) == "%20" + [];
  }

  lemma SamePart(a: string, b: string)
    requires PlusToSpace(a) == PlusToSpace(b)
    ensures ReadPart(a) == ReadPart(b)
  {
    hide PlusToSpace, IndexOf, Decode;
  }

  lemma SpaceEscaped()
    ensures EncodeQuery(" ") == "%20"
  {
    StandsForItselfIff(' ');
    assert Utf8(' ') == [0x20] && [0x20][1..] == [];
    assert EscapeAll([0x20]) == Escape(0x20) + [] == "%20";
  }

  /** A text that reads as an object is printed character by character, under its key and position. */
  lemma {:induction false} IndexedAt(k: string, t: string, i: nat, j: nat)
    requires i <= j < |t|
    ensures |Indexed(k, t, i)| == |t| - i && Indexed(k, t, i)[j - i] == Add(k + "[" + Digits(j) + "]", Text([t[j]]))
    decreases |t| - i
  {
    hide Add, Digits;
    if i < j {
      IndexedAt(k, t, i + 1, j);
    } else if i + 1 < |t| {
      IndexedAt(k, t, i + 1, i + 1);
    }
  }

  lemma {:induction false} PositionsAt(t: string, i: nat, j: nat)
    requires i <= j < |t|
    ensures |Positions(t, i)| == |t| - i && Positions(t, i)[j - i] == Add(Digits(j), Text([t[j]]))
    decreases |t| - i
  {
    hide Add, Digits;
    if i < j {
      PositionsAt(t, i + 1, j);
    } else if i + 1 < |t| {
      PositionsAt(t, i + 1, i + 1);
    }
  }

  /** A key that ends in brackets prints each item as it is. */
  lemma BracketedItems(k: string, v: Scalar)
    ensures ValueParts(k + "[]", Many([v])) == [Add(k + "[]", v)]
  {
    hide Add;
    assert (k + "[]")[|k + "[]"| - 2..] == "[]";
    assert [v][1..] == [] && ManyParts(k + "[]", [v]) == [Add(k + "[]", v)] + [];
  }

  function Numeral(s: string): int {
    if s == [] then 0 else Numeral(s[..|s| - 1]) * 10 + (s[|s| - 1] as int - '0' as int)
  }

  /** Positions are printed as decimal numbers. */
  lemma {:induction false} DigitsAreDecimal(n: nat)
    ensures Numeral(Digits(n)) == n && Digits(n) != [] && (n > 0 ==> Digits(n)[0] != '0')
    ensures forall c :: c in Digits(n) ==> '0' <= c <= '9'
  {
    if n < 10 {
      assert [('0' as int + n) as char][..0] == [];
    } else {
      DigitsAreDecimal(n / 10);
      var init := Digits(n / 10);
      assert (init + [('0' as int + n % 10) as char])[..|init|] == init;
    }
  }

  /** Under an empty key, a text is printed character by character under its positions, and a list
      loses its items; with a key, a text that reads as an object is taken apart. */
  lemma OddlyPrinted(k: string, t: string, vs: seq<Scalar>)
    requires k != ""
    ensures |ValueParts("", One(Text(t)))| == |t|
    ensures forall j :: 0 <= j < |t| ==> ValueParts("", One(Text(t)))[j] == Add(Digits(j), Text([t[j]]))
    ensures |ValueParts("", Many(vs))| == |vs| && forall j :: 0 <= j < |vs| ==> ValueParts("", Many(vs))[j] == "undefined="
    ensures ValueParts(k, One(Text(OBJECT))) == Indexed(k, OBJECT, 0)
  {
    hide Add, Digits;
    forall j | 0 <= j < |t|
      ensures |Positions(t, 0)| == |t| && Positions(t, 0)[j] == Add(Digits(j), Text([t[j]]))
    {
      PositionsAt(t, 0, j);
    }
  }

  // ---------------------------------------------------------------- what parsing can produce

  predicate Plain(v: Scalar) {
    v.Flag? || v.Undefined? || (v.Text? && v.text != "true" && v.text != "false")
  }

  predicate Raw(v: Scalar) {
    v == Flag(true) || v.Undefined? || v.Text?
  }

  /** The values a parse can give a key: one normalised value, or two and then any number of
      raw ones. */
  predicate Producible(v: Value) {
    match v
    case One(x) => Plain(x)
    case Many(vs) => |vs| >= 2 && Plain(vs[0]) && Plain(vs[1]) && forall i :: 2 <= i < |vs| ==> Raw(vs[i])
  }

  predicate AllProducible(m: QueryMap) {
    forall k :: k in m ==> Producible(m[k])
  }

  lemma ReadsRaw(part: string)
    ensures ReadPart(part).Some? ==> Raw(ReadPart(part).value.1)
  {
  }

  lemma PutKeepsProducible(obj: QueryMap, k: string, v: Scalar)
    requires AllProducible(obj) && Raw(v)
    ensures Put(obj, k, v).Parsed? ==> AllProducible(Put(obj, k, v).obj)
  {
  }

  lemma {:induction false} PartsKeepProducible(obj: QueryMap, parts: seq<string>)
    requires AllProducible(obj)
    ensures ParseParts(obj, parts).Parsed? ==> AllProducible(ParseParts(obj, parts).obj)
    decreases |parts|
  {
    if parts != [] {
      var o := ParsePart(obj, parts[0]);
      ReadsRaw(parts[0]);
      if ReadPart(parts[0]).Some? {
        PutKeepsProducible(obj, ReadPart(parts[0]).value.0, ReadPart(parts[0]).value.1);
      }
      if o.Parsed? {
        PartsKeepProducible(o.obj, parts[1..]);
      }
    }
  }

  lemma ParsedIsProducible(s: string)
    ensures Parse(s).Parsed? ==> AllProducible(Parse(s).obj)
  {
    PartsKeepProducible(map[], Split(s));
  }

  // ---------------------------------------------------------------- the round trip

  predicate GoodKey(k: string) {
    k != "" && k != "hasOwnProperty" && k != "__proto__"
  }

  predicate NoObjectText(k: string, v: Value) {
    match v
    case One(x) => x != Text(OBJECT)
    case Many(vs) => Itemwise(k, vs)
  }

  predicate NoUndefined(v: Value) {
    match v
    case One(x) => !x.Undefined?
    case Many(vs) => Undefined !in vs
  }

  /** The maps the codec is for: no keys with a meaning of their own, no text that reads as an object. */
  predicate InDomain(m: QueryMap) {
    forall k :: k in m ==> GoodKey(k) && NoObjectText(k, m[k])
  }

  predicate Survives(v: Value) {
    Producible(v) && NoUndefined(v)
  }

  /** What a printed value is read back as, before normalising. */
  function Printed(v: Scalar): Scalar {
    match v
    case Flag(on) => if on then v else Text("false")
    case Text(_) => v
    case Number(t) => Text(t)
    case _ => Text("")
  }

  lemma {:induction false} NoPlus(s: string)
    requires '+' !in s
    ensures PlusToSpace(s) == s
  {
    if s != [] {
      assert s == [s[0]] + s[1..];
      NoPlus(s[1..]);
    }
  }

  lemma SafeHas(s: string)
    requires forall c :: c in s ==> Safe(c)
    ensures '+' !in s && '&' !in s && '=' !in s && '#' !in s && '?' !in s
  {
  }

  lemma ReadPair(k: string, t: string)
    requires k != ""
    ensures
      var part := EncodeQuery(k) + "=" + EncodeQuery(t);
      ReadPart(part) == Some((k, Text(t))) && part != "" && '&' !in part && '#' !in part && '?' !in part
  {
    var a, b := EncodeQuery(k), EncodeQuery(t);
    EncodeQueryIsSafe(k);
    EncodeQueryIsSafe(t);
    SafeHas(a);
    SafeHas(b);
    var part := a + "=" + b;
    NoPlus(part);
    IndexOfFirst(a, '=', b);
    assert part[..|a|] == a && part[|a| + 1..] == b;
    QueryRoundTrip(k);
    QueryRoundTrip(t);
  }

  lemma ReadBare(k: string)
    requires k != ""
    ensures
      var part := EncodeQuery(k);
      ReadPart(part) == Some((k, Flag(true))) && part != "" && '&' !in part && '#' !in part && '?' !in part
  {
    var a := EncodeQuery(k);
    EncodeQueryIsSafe(k);
    SafeHas(a);
    NoPlus(a);
    QueryRoundTrip(k);
    assert IndexOf(a, '=') == -1;
  }

  /** A printed part reads back as its key and value and holds no separator. */
  lemma ReadAdd(k: string, v: Scalar)
    requires k != ""
    ensures ReadPart(Add(k, v)) == Some((k, Printed(v)))
    ensures Add(k, v) != "" && '&' !in Add(k, v) && '#' !in Add(k, v) && '?' !in Add(k, v)
  {
    match v
    case Flag(on) =>
      if on {
        ReadBare(k);
      } else {
        ReadPair(k, "false");
      }
    case Text(t) => ReadPair(k, t);
    case Number(t) => ReadPair(k, t);
    case _ => ReadPair(k, "");
  }

  /** The parser can still ask whether the object has a key. */
  predicate Answering(obj: QueryMap) {
    "hasOwnProperty" !in obj
  }

  lemma StaysAnswering(obj: QueryMap, k: string, v: Value)
    requires GoodKey(k) && Answering(obj)
    ensures Answering(obj[k := v])
  {
  }

  lemma ParseAdd(obj: QueryMap, k: string, v: Scalar, rest: seq<string>)
    requires GoodKey(k) && Answering(obj)
    ensures Put(obj, k, Printed(v)).Parsed?
    ensures ParseParts(obj, [Add(k, v)] + rest) == ParseParts(Put(obj, k, Printed(v)).obj, rest)
  {
    ReadAdd(k, v);
    assert ([Add(k, v)] + rest)[1..] == rest;
  }

  lemma PrintedNormal(v: Scalar)
    requires Plain(v) && !v.Undefined?
    ensures Normal(Printed(v)) == v
  {
  }

  lemma ParseFirst(obj: QueryMap, k: string, v: Scalar, rest: seq<string>)
    requires GoodKey(k) && Answering(obj) && k !in obj && Plain(v) && !v.Undefined?
    ensures ParseParts(obj, [Add(k, v)] + rest) == ParseParts(obj[k := One(v)], rest)
  {
    ParseAdd(obj, k, v, rest);
    PrintedNormal(v);
  }

  lemma ParseSecond(obj: QueryMap, k: string, u: Scalar, v: Scalar, rest: seq<string>)
    requires GoodKey(k) && Answering(obj) && Plain(v) && !v.Undefined?
    ensures ParseParts(obj[k := One(u)], [Add(k, v)] + rest) == ParseParts(obj[k := Many([u, v])], rest)
  {
    hide ParseParts, Add, Printed, Normal, Plain;
    StaysAnswering(obj, k, One(u));
    ParseAdd(obj[k := One(u)], k, v, rest);
    PrintedNormal(v);
    assert obj[k := One(u)][k := Many([u, v])] == obj[k := Many([u, v])];
  }

  lemma ParseNext(obj: QueryMap, k: string, done: seq<Scalar>, v: Scalar, rest: seq<string>)
    requires GoodKey(k) && Answering(obj) && Raw(v) && !v.Undefined?
    ensures ParseParts(obj[k := Many(done)], [Add(k, v)] + rest) == ParseParts(obj[k := Many(done + [v])], rest)
  {
    hide ParseParts, Add;
    StaysAnswering(obj, k, Many(done));
    ParseAdd(obj[k := Many(done)], k, v, rest);
    assert obj[k := Many(done)][k := Many(done + [v])] == obj[k := Many(done + [v])];
  }

  predicate Itemwise(k: string, vs: seq<Scalar>) {
    Bracketed(k) || Text(OBJECT) !in vs
  }

  lemma ManyPartsFirst(k: string, vs: seq<Scalar>, rest: seq<string>)
    requires vs != [] && Itemwise(k, vs)
    ensures ManyParts(k, vs) + rest == [Add(k, vs[0])] + (ManyParts(k, vs[1..]) + rest)
    ensures Itemwise(k, vs[1..])
  {
    hide Add;
    assert vs[0] in vs;
    assert ItemParts(k, vs[0]) == [Add(k, vs[0])];
  }

  lemma {:induction false} ParseRest(obj: QueryMap, k: string, done: seq<Scalar>, vs: seq<Scalar>, rest: seq<string>)
    requires GoodKey(k) && Answering(obj) && Itemwise(k, vs)
    requires forall i :: 0 <= i < |vs| ==> Raw(vs[i]) && !vs[i].Undefined?
    ensures ParseParts(obj[k := Many(done)], ManyParts(k, vs) + rest) == ParseParts(obj[k := Many(done + vs)], rest)
    decreases |vs|
  {
    if vs == [] {
      assert done + vs == done && ManyParts(k, vs) + rest == rest;
    } else {
      var v, tail := vs[0], vs[1..];
      calc {
        ParseParts(obj[k := Many(done)], ManyParts(k, vs) + rest);
        { ManyPartsFirst(k, vs, rest); }
        ParseParts(obj[k := Many(done)], [Add(k, v)] + (ManyParts(k, tail) + rest));
        { ParseNext(obj, k, done, v, ManyParts(k, tail) + rest); }
        ParseParts(obj[k := Many(done + [v])], ManyParts(k, tail) + rest);
        { ManyPartsFirst(k, vs, rest); ParseRest(obj, k, done + [v], tail, rest); }
        ParseParts(obj[k := Many(done + [v] + tail)], rest);
        { assert done + [v] + tail == done + vs; }
        ParseParts(obj[k := Many(done + vs)], rest);
      }
    }
  }

  lemma ParseMany(obj: QueryMap, k: string, vs: seq<Scalar>, rest: seq<string>)
    requires GoodKey(k) && k !in obj && Answering(obj)
    requires Survives(Many(vs)) && Itemwise(k, vs)
    ensures ParseParts(obj, ManyParts(k, vs) + rest) == ParseParts(obj[k := Many(vs)], rest)
  {
    hide ParseParts, ManyParts, Add;
    var tail := vs[1..];
    assert vs[0] in vs && vs[1] in vs;
    assert tail[0] == vs[1] && tail[1..] == vs[2..];
    ManyPartsFirst(k, vs, rest);
    ParseFirst(obj, k, vs[0], ManyParts(k, tail) + rest);
    ManyPartsFirst(k, tail, rest);
    ParseSecond(obj, k, vs[0], vs[1], ManyParts(k, vs[2..]) + rest);
    assert forall i :: 0 <= i < |vs| - 2 ==> vs[2..][i] == vs[i + 2] && vs[i + 2] in vs;
    ParseRest(obj, k, [vs[0], vs[1]], vs[2..], rest);
    assert [vs[0], vs[1]] + vs[2..] == vs;
  }

  lemma ParseValue(obj: QueryMap, k: string, v: Value, rest: seq<string>)
    requires GoodKey(k) && k !in obj && Answering(obj)
    requires Survives(v) && NoObjectText(k, v)
    ensures ParseParts(obj, ValueParts(k, v) + rest) == ParseParts(obj[k := v], rest)
  {
    match v
    case One(x) =>
      ParseFirst(obj, k, x, rest);
    case Many(vs) =>
      ParseMany(obj, k, vs, rest);
  }

  ghost function Restricted(m: QueryMap, keys: set<string>): QueryMap {
    map k | k in m && k in keys :: m[k]
  }

  lemma {:induction false} ParsePrinted(m: QueryMap, order: seq<string>, done: set<string>)
    requires InDomain(m) && forall k :: k in m ==> Survives(m[k])
    requires forall k :: k in order ==> k in m && k !in done
    requires forall i, j :: 0 <= i < j < |order| ==> order[i] != order[j]
    requires forall k :: k in m ==> k in order || k in done
    ensures ParseParts(Restricted(m, done), Parts(m, order)) == Parsed(m)
    decreases |order|
  {
    if order == [] {
      assert Restricted(m, done) == m;
    } else {
      var k, rest := order[0], order[1..];
      assert k in order && GoodKey(k);
      ParseValue(Restricted(m, done), k, m[k], Parts(m, rest));
      assert Restricted(m, done)[k := m[k]] == Restricted(m, done + {k});
      assert forall x :: x in order <==> x == k || x in rest;
      ParsePrinted(m, rest, done + {k});
    }
  }

  lemma {:induction false} ManyPartsFormed(k: string, vs: seq<Scalar>)
    requires k != ""
    ensures forall p :: p in ManyParts(k, vs) ==> Formed(p)
  {
    hide Formed, Indexed, Bracketed;
    if vs != [] {
      ManyPartsFormed(k, vs[1..]);
      IndexedFormed(k, OBJECT, 0);
      AddFormed(k, vs[0]);
    }
  }

  /** A printed part: it reads back as some key and a value that is not undefined. */
  ghost predicate Formed(part: string) {
    && part != "" && '&' !in part && '#' !in part && '?' !in part
    && ReadPart(part).Some? && Raw(ReadPart(part).value.1) && !ReadPart(part).value.1.Undefined?
  }

  lemma AddFormed(k: string, v: Scalar)
    requires k != ""
    ensures Formed(Add(k, v))
  {
    hide Add;
    ReadAdd(k, v);
  }

  lemma {:induction false} IndexedFormed(k: string, t: string, i: nat)
    requires i <= |t|
    ensures forall p :: p in Indexed(k, t, i) ==> Formed(p)
    decreases |t| - i
  {
    if i < |t| {
      IndexedFormed(k, t, i + 1);
      AddFormed(k + "[" + Digits(i) + "]", Text([t[i]]));
    }
  }

  lemma ValuePartsFormed(k: string, v: Value)
    requires k != ""
    ensures forall p :: p in ValueParts(k, v) ==> Formed(p)
  {
    hide Formed, Indexed;
    match v {
      case One(x) =>
        IndexedFormed(k, OBJECT, 0);
        AddFormed(k, x);
      case Many(vs) =>
        ManyPartsFormed(k, vs);
    }
  }

  lemma {:induction false} PartsFormed(m: QueryMap, order: seq<string>)
    requires forall k :: k in order ==> k in m && k != ""
    ensures forall p :: p in Parts(m, order) ==> Formed(p)
  {
    if order != [] {
      assert order[0] in order && forall k :: k in order[1..] ==> k in order;
      PartsFormed(m, order[1..]);
      ValuePartsFormed(order[0], m[order[0]]);
    }
  }

  lemma ParseJoined(parts: seq<string>)
    requires forall p :: p in parts ==> '&' !in p
    ensures Parse(Join(parts)) == ParseParts(map[], parts)
  {
    if parts == [] {
      assert Split("") == [""] && [""][1..] == [];
    } else {
      SplitJoin(parts);
    }
  }

  predicate Defined(m: QueryMap) {
    forall k :: k in m ==> Survives(m[k])
  }

  lemma PutKeepsDefined(obj: QueryMap, k: string, v: Scalar)
    requires Defined(obj) && Raw(v) && !v.Undefined?
    ensures Put(obj, k, v).Parsed? ==> Defined(Put(obj, k, v).obj)
  {
    PutKeepsProducible(obj, k, v);
  }

  lemma {:induction false} FormedPartsParseDefined(obj: QueryMap, parts: seq<string>)
    requires Defined(obj) && forall p :: p in parts ==> Formed(p)
    ensures ParseParts(obj, parts).Parsed? ==> Defined(ParseParts(obj, parts).obj)
    decreases |parts|
  {
    if parts != [] {
      assert Formed(parts[0]);
      var kv := ReadPart(parts[0]).value;
      PutKeepsDefined(obj, kv.0, kv.1);
      var o := ParsePart(obj, parts[0]);
      if o.Parsed? {
        FormedPartsParseDefined(o.obj, parts[1..]);
      }
    }
  }

  /** Printing a map and parsing the result gives the map back, whatever order its keys are
      enumerated in, exactly when each of its values is one a parse can produce. */
  lemma RoundTripIff(m: QueryMap, order: seq<string>)
    requires InDomain(m) && Enumerates(order, m)
    ensures Parse(Join(Parts(m, order))) == Parsed(m) <==> Defined(m)
  {
    PartsFormed(m, order);
    ParseJoined(Parts(m, order));
    FormedPartsParseDefined(map[], Parts(m, order));
    if Defined(m) {
      ParsePrinted(m, order, {});
      assert Restricted(m, {}) == map[];
    }
  }

  /** A list of one item, a text that reads as a boolean, a number and a null do not survive. */
  lemma NotEverythingSurvives(k: string, digits: string, order: seq<string>)
    requires GoodKey(k) && Enumerates(order, map[k := One(Null)])
    ensures Parse(Join(Parts(map[k := One(Number(digits))], order))) != Parsed(map[k := One(Number(digits))])
    ensures Parse(Join(Parts(map[k := Many([Text("x")])], order))) != Parsed(map[k := Many([Text("x")])])
    ensures Parse(Join(Parts(map[k := One(Text("true"))], order))) != Parsed(map[k := One(Text("true"))])
    ensures Parse(Join(Parts(map[k := One(Null)], order))) != Parsed(map[k := One(Null)])
  {
    hide Parse, Join, Parts;
    assert Text("x") != Text(OBJECT) && Text("true") != Text(OBJECT) by {
      assert |OBJECT| == 15;
    }
    RoundTripIff(map[k := Many([Text("x")])], order);
    RoundTripIff(map[k := One(Text("true"))], order);
    RoundTripIff(map[k := One(Null)], order);
    RoundTripIff(map[k := One(Number(digits))], order);
    assert !Survives(map[k := One(Number(digits))][k]);
    assert !Survives(map[k := Many([Text("x")])][k]) && !Survives(map[k := One(Text("true"))][k]) && !Survives(map[k := One(Null)][k]);
  }

  /** Every map a parse yields, with nothing undecodable in it, prints and parses back to itself. */
  lemma ParsedRoundTrips(s: string, order: seq<string>)
    requires Parse(s).Parsed? && InDomain(Parse(s).obj) && Enumerates(order, Parse(s).obj)
    requires forall k :: k in Parse(s).obj ==> NoUndefined(Parse(s).obj[k])
    ensures Parse(Join(Parts(Parse(s).obj, order))) == Parse(s)
  {
    ParsedIsProducible(s);
    RoundTripIff(Parse(s).obj, order);
  }
}
