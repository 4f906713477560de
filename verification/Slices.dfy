/** String order, sorting and the slice comparisons of the server's utilities. */
module Slices {

  // ---------------------------------------------------------------- order

  predicate Before(a: string, b: string) {
    if a == [] then true
    else if b == [] then false
    else if a[0] != b[0] then a[0] < b[0]
    else Before(a[1..], b[1..])
  }

  lemma {:induction false} BeforeTotal(a: string, b: string)
    ensures Before(a, b) || Before(b, a)
    ensures Before(a, b) && Before(b, a) ==> a == b
  {
    if a != [] && b != [] && a[0] == b[0] {
      BeforeTotal(a[1..], b[1..]);
      assert a == [a[0]] + a[1..] && b == [b[0]] + b[1..];
    }
  }

  lemma {:induction false} BeforeTransitive(a: string, b: string, c: string)
    requires Before(a, b) && Before(b, c)
    ensures Before(a, c)
  {
    if a != [] && a[0] == b[0] == c[0] {
      BeforeTransitive(a[1..], b[1..], c[1..]);
    }
  }

  /** The texts first differ at a place, and the first is less there. */
  ghost predicate LessAt(a: string, b: string, i: int) {
    0 <= i < |a| && i < |b| && a[..i] == b[..i] && a[i] < b[i]
  }

  ghost predicate LessSomewhere(a: string, b: string) {
    exists i :: LessAt(a, b, i)
  }

  lemma LessBehind(a: string, b: string)
    requires a != [] && b != [] && a[0] == b[0]
    ensures LessSomewhere(a, b) <==> LessSomewhere(a[1..], b[1..])
  {
    var a', b' := a[1..], b[1..];
    if i :| LessAt(a, b, i) {
      assert i > 0;
      assert a'[..i - 1] == a[..i][1..] && b'[..i - 1] == b[..i][1..];
      assert LessAt(a', b', i - 1);
    }
    if i :| LessAt(a', b', i) {
      assert a[..i + 1] == [a[0]] + a'[..i] && b[..i + 1] == [b[0]] + b'[..i];
      assert LessAt(a, b, i + 1);
    }
  }

  lemma BeginsBehind(a: string, b: string)
    requires a != [] && b != [] && a[0] == b[0]
    ensures a <= b <==> a[1..] <= b[1..]
  {
    assert a == [a[0]] + a[1..] && b == [b[0]] + b[1..];
  }

  lemma LessAtOnce(a: string, b: string)
    requires a != [] && b != [] && a[0] != b[0]
    ensures LessSomewhere(a, b) <==> a[0] < b[0]
    ensures !(a <= b)
  {
    BeginAlike(a, b);
    if a[0] < b[0] {
      assert a[..0] == b[..0] && LessAt(a, b, 0);
    }
    assert forall i :: LessAt(a, b, i) ==> i == 0;
  }

  /** A text comes before another that it begins, or that is greater where they first differ. */
  lemma {:induction false} BeforeIff(a: string, b: string)
    ensures Before(a, b) <==> a <= b || LessSomewhere(a, b)
  {
    if a == [] {
    } else if b == [] {
      assert !LessSomewhere(a, b);
    } else if a[0] == b[0] {
      BeforeIff(a[1..], b[1..]);
      LessBehind(a, b);
      BeginsBehind(a, b);
    } else {
      LessAtOnce(a, b);
    }
  }

  lemma BeginAlike(a: string, b: string)
    ensures a != [] && a <= b ==> b != [] && a[0] == b[0]
    ensures forall i :: 0 < i <= |a| && i <= |b| && a[..i] == b[..i] ==> a[0] == b[0]
  {
    forall i | 0 < i <= |a| && i <= |b| && a[..i] == b[..i]
      ensures a[0] == b[0]
    {
      assert a[..i][0] == b[..i][0];
    }
  }

  predicate Sorted(s: seq<string>) {
    forall i, j :: 0 <= i < j < |s| ==> Before(s[i], s[j])
  }

  function Insert(s: seq<string>, x: string): (r: seq<string>)
    requires Sorted(s)
    ensures Sorted(r) && multiset(r) == multiset(s) + multiset{x}
  {
    if s == [] then [x]
    else if Before(x, s[0]) then
      InsertFront(s, x);
      [x] + s
    else
      InsertLater(s, x);
      var r := Insert(s[1..], x);
      assert s == [s[0]] + s[1..];
      SortedCons(s[0], r);
      [s[0]] + r
  }

  lemma InsertFront(s: seq<string>, x: string)
    requires Sorted(s) && s != [] && Before(x, s[0])
    ensures Sorted([x] + s)
  {
    forall j | 0 <= j < |s|
      ensures Before(x, s[j])
    {
      if j > 0 {
        BeforeTransitive(x, s[0], s[j]);
      }
    }
  }

  lemma InsertLater(s: seq<string>, x: string)
    requires Sorted(s) && s != [] && !Before(x, s[0])
    ensures forall y :: y in multiset(s[1..]) + multiset{x} ==> Before(s[0], y)
  {
    BeforeTotal(x, s[0]);
  }

  lemma SortedCons(x: string, s: seq<string>)
    requires Sorted(s) && forall y :: y in multiset(s) ==> Before(x, y)
    ensures Sorted([x] + s)
  {
    assert forall j :: 0 <= j < |s| ==> s[j] in multiset(s);
  }

  function Sort(s: seq<string>): (r: seq<string>)
    ensures Sorted(r) && multiset(r) == multiset(s)
  {
    if s == [] then []
    else
      assert s == [s[0]] + s[1..];
      Insert(Sort(s[1..]), s[0])
  }

  // ---------------------------------------------------------------- comparisons

  predicate EqualSlice(a: seq<string>, b: seq<string>) {
    Sort(a) == Sort(b)
  }

  /** Whether `a` holds every item of `b`; the shortcut for equal slices changes nothing. */
  method SliceIncludeSlice(a: seq<string>, b: seq<string>) returns (r: bool)
    ensures r <==> forall x :: x in b ==> x in a
  {
    if EqualSlice(a, b) {
      assert multiset(a) == multiset(b);
      assert forall x :: x in b ==> x in multiset(b);
      return true;
    }
    for i := 0 to |b|
      invariant forall x :: x in b[..i] ==> x in a
    {
      if b[i] !in a {
        return false;
      }
    }
    assert b[..|b|] == b;
    return true;
  }

  ghost predicate OnceEach(s: seq<string>, items: set<string>) {
    forall k :: multiset(s)[k] == if k in items then 1 else 0
  }

  ghost function Items(s: seq<string>): set<string> {
    set k | k in s
  }

  lemma OnceEachAppend(s: seq<string>, items: set<string>, x: string)
    requires OnceEach(s, items) && x !in items
    ensures OnceEach(s + [x], items + {x})
  {
    assert multiset(s + [x]) == multiset(s) + multiset{x};
  }

  lemma OnceEachSorted(s: seq<string>, items: set<string>)
    requires OnceEach(s, items)
    ensures OnceEach(Sort(s), items)
  {
    assert multiset(Sort(s)) == multiset(s);
  }

  method Listed(items: set<string>) returns (s: seq<string>)
    ensures OnceEach(s, items)
  {
    s := [];
    var rest := items;
    while rest != {}
      invariant rest <= items && OnceEach(s, items - rest)
      decreases rest
    {
      var k :| k in rest;
      OnceEachAppend(s, items - rest, k);
      assert items - (rest - {k}) == items - rest + {k};
      s := s + [k];
      rest := rest - {k};
    }
    assert items - rest == items;
  }

  /** Items of both slices, of `a` only and of `b` only. A second copy in `a` of an item
      of `b` counts as an item of `a` only. */
  method ThreeWaySliceCompare(a: seq<string>, b: seq<string>)
    returns (both: seq<string>, onlyA: seq<string>, onlyB: seq<string>)
    ensures Sorted(both) && Sorted(onlyA) && Sorted(onlyB)
    ensures OnceEach(both, Items(a) * Items(b))
    ensures multiset(both) + multiset(onlyA) == multiset(a)
    ensures OnceEach(onlyB, Items(b) - Items(a))
  {
    var m := set k | k in b;
    both, onlyA := [], [];
    for i := 0 to |a|
      invariant m == Items(b) - Items(a[..i])
      invariant multiset(both) + multiset(onlyA) == multiset(a[..i])
      invariant OnceEach(both, Items(a[..i]) * Items(b))
    {
      assert a[..i + 1] == a[..i] + [a[i]];
      assert Items(a[..i + 1]) == Items(a[..i]) + {a[i]};
      if a[i] !in m {
        onlyA := onlyA + [a[i]];
        assert Items(a[..i + 1]) * Items(b) == Items(a[..i]) * Items(b);
      } else {
        OnceEachAppend(both, Items(a[..i]) * Items(b), a[i]);
        assert Items(a[..i + 1]) * Items(b) == Items(a[..i]) * Items(b) + {a[i]};
        both := both + [a[i]];
        m := m - {a[i]};
      }
    }
    assert a[..|a|] == a;
    onlyB := Listed(m);
    OnceEachSorted(both, Items(a) * Items(b));
    OnceEachSorted(onlyB, m);
    both, onlyA, onlyB := Sort(both), Sort(onlyA), Sort(onlyB);
  }
}
