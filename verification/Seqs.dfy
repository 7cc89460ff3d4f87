/** Filtering and searching in lists, as `Array.prototype.filter` and `find` do. */
module Seqs {
  import opened Wrappers

  function Filter<T(!new)>(p: T -> bool, s: seq<T>): (r: seq<T>)
    ensures forall x :: x in r <==> x in s && p(x)
    ensures |r| <= |s|
  {
    if s == [] then [] else (if p(s[0]) then [s[0]] else []) + Filter(p, s[1..])
  }

  function Find<T(!new)>(p: T -> bool, s: seq<T>): (r: Option<T>)
    ensures r.Some? ==> p(r.value) && r.value in s
    ensures r.None? ==> forall x :: x in s ==> !p(x)
  {
    if s == [] then None else if p(s[0]) then Some(s[0]) else Find(p, s[1..])
  }

  function Map<T, U>(f: T -> U, s: seq<T>): (r: seq<U>)
    ensures |r| == |s|
    ensures forall i :: 0 <= i < |s| ==> r[i] == f(s[i])
  {
    seq(|s|, i requires 0 <= i < |s| => f(s[i]))
  }

  ghost predicate Distinct<T>(s: seq<T>) {
    forall i, j :: 0 <= i < j < |s| ==> s[i] != s[j]
  }

  lemma FilterCons<T(!new)>(p: T -> bool, x: T, s: seq<T>)
    ensures Filter(p, [x] + s) == (if p(x) then [x] else []) + Filter(p, s)
  {
    assert ([x] + s)[1..] == s;
  }

  lemma FilterSnoc<T(!new)>(p: T -> bool, s: seq<T>, x: T)
    ensures Filter(p, s + [x]) == Filter(p, s) + (if p(x) then [x] else [])
  {
    FilterConcat(p, s, [x]);
  }

  lemma {:induction false} FilterConcat<T(!new)>(p: T -> bool, a: seq<T>, b: seq<T>)
    ensures Filter(p, a + b) == Filter(p, a) + Filter(p, b)
  {
    if a == [] {
      assert a + b == b;
    } else {
      assert (a + b)[1..] == a[1..] + b;
      FilterConcat(p, a[1..], b);
    }
  }

  lemma {:induction false} FilterAll<T(!new)>(p: T -> bool, s: seq<T>)
    requires forall x :: x in s ==> p(x)
    ensures Filter(p, s) == s
  {
    if s != [] {
      FilterAll(p, s[1..]);
    }
  }

  lemma {:induction false} FilterNone<T(!new)>(p: T -> bool, s: seq<T>)
    requires forall x :: x in s ==> !p(x)
    ensures Filter(p, s) == []
  {
    if s != [] {
      FilterNone(p, s[1..]);
    }
  }

  /** Filters with predicates that agree on the list give the same list. */
  lemma {:induction false} FilterSame<T(!new)>(p: T -> bool, q: T -> bool, s: seq<T>)
    requires forall x :: x in s ==> p(x) == q(x)
    ensures Filter(p, s) == Filter(q, s)
  {
    if s != [] {
      FilterSame(p, q, s[1..]);
    }
  }

  /** `find` is the head of `filter`. */
  lemma {:induction false} FindIsFirst<T(!new)>(p: T -> bool, s: seq<T>)
    ensures Find(p, s) == if Filter(p, s) == [] then None else Some(Filter(p, s)[0])
  {
    if s != [] {
      FindIsFirst(p, s[1..]);
    }
  }

  lemma {:induction false} FindConcat<T(!new)>(p: T -> bool, a: seq<T>, b: seq<T>)
    ensures Find(p, a + b) == Find(p, a).Or(Find(p, b))
  {
    if a == [] {
      assert a + b == b;
    } else {
      assert (a + b)[1..] == a[1..] + b;
      FindConcat(p, a[1..], b);
    }
  }

  /** Searching a list where exactly one element can match finds that element. */
  lemma {:induction false} FindOnly<T(!new)>(p: T -> bool, s: seq<T>, w: T)
    requires w in s && p(w)
    requires forall x :: x in s && p(x) ==> x == w
    ensures Find(p, s) == Some(w)
  {
  }

  /** `flatMap`. */
  function FlatMap<T, U>(f: T -> seq<U>, s: seq<T>): seq<U> {
    if s == [] then [] else FlatMap(f, s[..|s| - 1]) + f(s[|s| - 1])
  }

  lemma FlatMapSnoc<T, U>(f: T -> seq<U>, s: seq<T>, x: T)
    ensures FlatMap(f, s + [x]) == FlatMap(f, s) + f(x)
  {
    assert (s + [x])[..|s|] == s;
  }

  ghost predicate KeptAlike<T(!new)>(p: T -> bool, f: T -> seq<T>, x: T) {
    Filter(p, f(x)) == Filter(p, [x])
  }

  /** A predicate that cannot tell each element from what replaces it keeps the same list. */
  lemma {:induction false} FilterFlatMap<T(!new)>(p: T -> bool, f: T -> seq<T>, s: seq<T>)
    requires forall i :: 0 <= i < |s| ==> KeptAlike(p, f, s[i])
    ensures Filter(p, FlatMap(f, s)) == Filter(p, s)
  {
    if s != [] {
      var front, x := s[..|s| - 1], s[|s| - 1];
      assert KeptAlike(p, f, x);
      hide Filter, FlatMap, KeptAlike;
      forall i | 0 <= i < |front| ensures KeptAlike(p, f, front[i]) {
        assert front[i] == s[i];
      }
      FilterFlatMap(p, f, front);
      FilterMore(p, f, front, x);
      assert s == front + [x];
    }
  }

  lemma FilterMore<T(!new)>(p: T -> bool, f: T -> seq<T>, front: seq<T>, x: T)
    requires Filter(p, FlatMap(f, front)) == Filter(p, front) && KeptAlike(p, f, x)
    ensures Filter(p, FlatMap(f, front + [x])) == Filter(p, front + [x])
  {
    hide Filter, FlatMap;
    FlatMapSnoc(f, front, x);
    FilterConcat(p, FlatMap(f, front), f(x));
    FilterConcat(p, front, [x]);
  }

  lemma {:induction false} FlatMapSingles<T, U>(f: T -> seq<U>, g: T -> U, s: seq<T>)
    requires forall i :: 0 <= i < |s| ==> f(s[i]) == [g(s[i])]
    ensures FlatMap(f, s) == Map(g, s)
  {
    if s != [] {
      FlatMapSingles(f, g, s[..|s| - 1]);
    }
  }

  predicate SameKey<T, K(==)>(key: T -> K, a: Option<T>, b: Option<T>) {
    a.Some? == b.Some? && (a.Some? ==> key(a.value) == key(b.value))
  }

  /** Searching the replaced list finds a match exactly when the list had one, and one with the same
      key, if that holds for the element the search of the list stops at. */
  lemma {:induction false} FindFlatMap<T(!new), K>(p: T -> bool, f: T -> seq<T>, key: T -> K, s: seq<T>)
    requires forall i :: 0 <= i < |s| ==> FoundAlike(p, f, key, s, i)
    ensures SameKey(key, Find(p, s), Find(p, FlatMap(f, s)))
  {
    if s != [] {
      var front, x := s[..|s| - 1], s[|s| - 1];
      assert FoundAlike(p, f, key, s, |front|);
      hide Find, FlatMap, SameKey;
      forall i | 0 <= i < |front| ensures FoundAlike(p, f, key, front, i) {
        assert FoundAlike(p, f, key, s, i);
        assert front[..i] == s[..i] && front[i] == s[i];
      }
      hide FoundAlike;
      FindFlatMap(p, f, key, front);
      FindMore(p, f, key, front, x);
      assert s == front + [x];
    }
  }

  ghost predicate FoundAlike<T(!new), K>(p: T -> bool, f: T -> seq<T>, key: T -> K, s: seq<T>, i: nat)
    requires i < |s|
  {
    Find(p, s[..i]).None? ==> SameKey(key, Find(p, [s[i]]), Find(p, f(s[i])))
  }

  lemma FindMore<T(!new), K>(p: T -> bool, f: T -> seq<T>, key: T -> K, front: seq<T>, x: T)
    requires SameKey(key, Find(p, front), Find(p, FlatMap(f, front)))
    requires Find(p, front).None? ==> SameKey(key, Find(p, [x]), Find(p, f(x)))
    ensures SameKey(key, Find(p, front + [x]), Find(p, FlatMap(f, front + [x])))
  {
    hide Find, FlatMap, SameKey;
    FlatMapSnoc(f, front, x);
    FindConcat(p, FlatMap(f, front), f(x));
    FindConcat(p, front, [x]);
    SameKeyOr(key, Find(p, front), Find(p, FlatMap(f, front)), Find(p, [x]), Find(p, f(x)));
  }

  lemma SameKeyOr<T, K>(key: T -> K, a: Option<T>, b: Option<T>, c: Option<T>, d: Option<T>)
    requires SameKey(key, a, b) && (a.None? ==> SameKey(key, c, d))
    ensures SameKey(key, a.Or(c), b.Or(d))
  {
  }

  function Keeping<T>(p: T -> bool): T -> seq<T> {
    (x: T) => if p(x) then [x] else []
  }

  lemma {:induction false} FilterIsFlatMap<T(!new)>(p: T -> bool, s: seq<T>)
    ensures Filter(p, s) == FlatMap(Keeping(p), s)
  {
    if s != [] {
      var front, x := s[..|s| - 1], s[|s| - 1];
      FilterIsFlatMap(p, front);
      FilterSnoc(p, front, x);
      assert s == front + [x];
    }
  }
}
