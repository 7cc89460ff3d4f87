/** `Array.prototype.sort` and Rust's `sort_by_key`: a stable sort. */
module StableSort {
  import opened Seqs

  ghost predicate TotalPreorder<T(!new)>(le: (T, T) -> bool) {
    && (forall a, b :: le(a, b) || le(b, a))
    && (forall a, b, c :: le(a, b) && le(b, c) ==> le(a, c))
  }

  ghost predicate Sorted<T>(le: (T, T) -> bool, s: seq<T>) {
    forall i, j :: 0 <= i < j < |s| ==> le(s[i], s[j])
  }

  /** Puts `x` in front of the first element it does not come after. */
  function Insert<T>(le: (T, T) -> bool, x: T, s: seq<T>): seq<T> {
    if s == [] || le(x, s[0]) then [x] + s else [s[0]] + Insert(le, x, s[1..])
  }

  /** The stable sort. `SortUnique` shows that every stable sort returns this list. */
  function Sort<T>(le: (T, T) -> bool, s: seq<T>): seq<T> {
    if s == [] then [] else Insert(le, s[0], Sort(le, s[1..]))
  }

  lemma {:induction false} InsertPermutes<T>(le: (T, T) -> bool, x: T, s: seq<T>)
    ensures multiset(Insert(le, x, s)) == multiset(s) + multiset{x}
  {
    if s == [] || le(x, s[0]) {
    } else {
      InsertPermutes(le, x, s[1..]);
      assert s == [s[0]] + s[1..];
    }
  }

  lemma SameElements<T>(s: seq<T>, t: seq<T>)
    requires multiset(s) == multiset(t)
    ensures |s| == |t|
    ensures forall x :: x in s <==> x in t
  {
    assert |multiset(s)| == |multiset(t)|;
    forall x ensures x in s <==> x in t {
      assert x in s <==> x in multiset(s);
      assert x in t <==> x in multiset(t);
    }
  }

  lemma {:induction false} SortMultiset<T>(le: (T, T) -> bool, s: seq<T>)
    ensures multiset(Sort(le, s)) == multiset(s)
  {
    if s != [] {
      var h, rest := s[0], s[1..];
      SortMultiset(le, rest);
      InsertPermutes(le, h, Sort(le, rest));
      assert s == [h] + rest;
    }
  }

  lemma SortPermutes<T>(le: (T, T) -> bool, s: seq<T>)
    ensures multiset(Sort(le, s)) == multiset(s)
    ensures |Sort(le, s)| == |s|
    ensures forall x :: x in s <==> x in Sort(le, s)
  {
    SortMultiset(le, s);
    SameElements(s, Sort(le, s));
  }

  lemma {:induction false} InsertSorted<T(!new)>(le: (T, T) -> bool, x: T, s: seq<T>)
    requires TotalPreorder(le) && Sorted(le, s)
    ensures Sorted(le, Insert(le, x, s))
  {
    if s == [] || le(x, s[0]) {
    } else {
      InsertSorted(le, x, s[1..]);
      InsertPermutes(le, x, s[1..]);
      var t := Insert(le, x, s[1..]);
      forall y | y in t ensures le(s[0], y) {
        assert y in multiset(t);
      }
    }
  }

  lemma {:induction false} SortSorted<T(!new)>(le: (T, T) -> bool, s: seq<T>)
    requires TotalPreorder(le)
    ensures Sorted(le, Sort(le, s))
  {
    if s != [] {
      SortSorted(le, s[1..]);
      InsertSorted(le, s[0], Sort(le, s[1..]));
    }
  }

  /** A sorted list is left alone: in particular a list of equals keeps its order. */
  lemma {:induction false} SortIdentity<T(!new)>(le: (T, T) -> bool, s: seq<T>)
    requires Sorted(le, s)
    ensures Sort(le, s) == s
  {
    if s != [] {
      SortIdentity(le, s[1..]);
    }
  }

  /** An element that comes before a sorted list comes before what a filter leaves of it. */
  lemma InsertFront<T(!new)>(le: (T, T) -> bool, p: T -> bool, x: T, s: seq<T>)
    requires TotalPreorder(le) && Sorted(le, s)
    requires s == [] || le(x, s[0])
    ensures Insert(le, x, Filter(p, s)) == [x] + Filter(p, s)
  {
    var f := Filter(p, s);
    if f != [] {
      assert f[0] in f;
      var i :| 0 <= i < |s| && s[i] == f[0];
      assert i == 0 || le(s[0], s[i]);
      assert le(x, f[0]);
    }
  }

  lemma {:induction false} InsertFilter<T(!new)>(le: (T, T) -> bool, p: T -> bool, x: T, s: seq<T>)
    requires TotalPreorder(le) && Sorted(le, s)
    ensures Filter(p, Insert(le, x, s)) == if p(x) then Insert(le, x, Filter(p, s)) else Filter(p, s)
  {
    if s == [] || le(x, s[0]) {
      FilterCons(p, x, s);
      InsertFront(le, p, x, s);
    } else {
      var h, rest := s[0], s[1..];
      assert s == [h] + rest;
      InsertFilter(le, p, x, rest);
      var r, f := Insert(le, x, rest), Filter(p, rest);
      InsertBehind(le, x, h, rest);
      InsertBehind(le, x, h, f);
      FilterCons(p, h, r);
      FilterCons(p, h, rest);
      if p(h) {
        assert Filter(p, [h] + rest) == [h] + f;
        assert Filter(p, [h] + r) == [h] + Filter(p, r);
      } else {
        assert Filter(p, [h] + rest) == f;
        assert Filter(p, [h] + r) == Filter(p, r);
      }
    }
  }

  lemma InsertBehind<T>(le: (T, T) -> bool, x: T, h: T, s: seq<T>)
    requires !le(x, h)
    ensures Insert(le, x, [h] + s) == [h] + Insert(le, x, s)
  {
    assert ([h] + s)[1..] == s;
  }

  lemma SortCons<T(!new)>(le: (T, T) -> bool, x: T, s: seq<T>)
    ensures Sort(le, [x] + s) == Insert(le, x, Sort(le, s))
  {
    assert ([x] + s)[1..] == s;
  }

  lemma SortFilterStep<T(!new)>(le: (T, T) -> bool, p: T -> bool, h: T, rest: seq<T>)
    requires Filter(p, Sort(le, rest)) == Sort(le, Filter(p, rest))
    requires Filter(p, Insert(le, h, Sort(le, rest)))
          == if p(h) then Insert(le, h, Filter(p, Sort(le, rest))) else Filter(p, Sort(le, rest))
    ensures Filter(p, Sort(le, [h] + rest)) == Sort(le, Filter(p, [h] + rest))
  {
    FilterCons(p, h, rest);
    var f := Filter(p, rest);
    SortCons(le, h, rest);
    SortCons(le, h, f);
    if p(h) {
      assert Filter(p, [h] + rest) == [h] + f;
    } else {
      assert Filter(p, [h] + rest) == f;
    }
  }

  /** Stability: sorting and then keeping some elements is keeping them and then sorting. */
  lemma {:induction false} SortFilter<T(!new)>(le: (T, T) -> bool, p: T -> bool, s: seq<T>)
    requires TotalPreorder(le)
    ensures Filter(p, Sort(le, s)) == Sort(le, Filter(p, s))
  {
    if s != [] {
      var h, rest := s[0], s[1..];
      SortFilter(le, p, rest);
      SortSorted(le, rest);
      InsertFilter(le, p, h, Sort(le, rest));
      SortFilterStep(le, p, h, rest);
      assert s == [h] + rest;
    }
  }

  /** The elements that compare equal to `x`. */
  function EqualTo<T>(le: (T, T) -> bool, x: T): T -> bool {
    (y: T) => le(x, y) && le(y, x)
  }

  /** Two sorted lists with the same classes of equal elements begin with the same element. */
  lemma SameHead<T(!new)>(le: (T, T) -> bool, s: seq<T>, t: seq<T>)
    requires TotalPreorder(le) && Sorted(le, s) && Sorted(le, t) && s != []
    requires forall x :: Filter(EqualTo(le, x), s) == Filter(EqualTo(le, x), t)
    ensures t != [] && s[0] == t[0]
  {
    var p := EqualTo(le, s[0]);
    assert p(s[0]);
    assert s[0] in Filter(p, s);
    assert s[0] in t;
    var i :| 0 <= i < |t| && t[i] == s[0];
    assert le(t[0], s[0]);
    var q := EqualTo(le, t[0]);
    assert q(t[0]);
    assert t[0] in Filter(q, t);
    assert t[0] in Filter(q, s);
    var j :| 0 <= j < |s| && s[j] == t[0];
    assert le(s[0], t[0]);
    assert Filter(p, s)[0] == s[0] && Filter(p, t)[0] == t[0];
  }

  lemma {:induction false} SortedUnique<T(!new)>(le: (T, T) -> bool, s: seq<T>, t: seq<T>)
    requires TotalPreorder(le) && Sorted(le, s) && Sorted(le, t)
    requires forall x :: Filter(EqualTo(le, x), s) == Filter(EqualTo(le, x), t)
    ensures s == t
  {
    if s == [] {
      if t != [] {
        SameHead(le, t, s);
      }
    } else {
      SameHead(le, s, t);
      forall x ensures Filter(EqualTo(le, x), s[1..]) == Filter(EqualTo(le, x), t[1..]) {
        var q := EqualTo(le, x);
        var f := if q(s[0]) then [s[0]] else [];
        assert Filter(q, s) == f + Filter(q, s[1..]);
        assert Filter(q, t) == f + Filter(q, t[1..]);
        assert Filter(q, s)[|f|..] == Filter(q, s[1..]);
        assert Filter(q, t)[|f|..] == Filter(q, t[1..]);
      }
      SortedUnique(le, s[1..], t[1..]);
    }
  }

  /** Sorting keeps each class of equal elements as it was. */
  lemma SortClass<T(!new)>(le: (T, T) -> bool, s: seq<T>, x: T)
    requires TotalPreorder(le)
    ensures Filter(EqualTo(le, x), Sort(le, s)) == Filter(EqualTo(le, x), s)
  {
    var p := EqualTo(le, x);
    SortFilter(le, p, s);
    var f := Filter(p, s);
    forall i, j | 0 <= i < j < |f| ensures le(f[i], f[j]) {
      assert f[i] in f && f[j] in f;
      assert p(f[i]) && p(f[j]);
    }
    SortIdentity(le, f);
  }

  /** Any sorted list that keeps each class of equal elements in order is the stable sort. */
  lemma SortUnique<T(!new)>(le: (T, T) -> bool, s: seq<T>, t: seq<T>)
    requires TotalPreorder(le) && Sorted(le, t)
    requires forall x :: Filter(EqualTo(le, x), s) == Filter(EqualTo(le, x), t)
    ensures t == Sort(le, s)
  {
    SortSorted(le, s);
    forall x ensures Filter(EqualTo(le, x), t) == Filter(EqualTo(le, x), Sort(le, s)) {
      SortClass(le, s, x);
    }
    SortedUnique(le, t, Sort(le, s));
  }

  /** The head of a stable sort is the first of the least elements. */
  lemma SortHead<T(!new)>(le: (T, T) -> bool, s: seq<T>)
    requires TotalPreorder(le) && s != []
    ensures Sort(le, s)[0] in s
    ensures forall x :: x in s ==> le(Sort(le, s)[0], x)
  {
    SortSorted(le, s);
    SortPermutes(le, s);
    var r := Sort(le, s);
    assert r[0] in r;
    forall x | x in s ensures le(r[0], x) {
      assert x in r;
    }
  }

  // Sorting on an integer key.

  function ByRank<T>(rank: T -> int): (T, T) -> bool {
    (a: T, b: T) => rank(a) <= rank(b)
  }

  function RankIs<T>(rank: T -> int, k: int): T -> bool {
    (a: T) => rank(a) == k
  }

  lemma SortByRankUnique<T(!new)>(rank: T -> int, s: seq<T>, t: seq<T>)
    requires Sorted(ByRank(rank), t)
    requires forall k :: Filter(RankIs(rank, k), s) == Filter(RankIs(rank, k), t)
    ensures t == Sort(ByRank(rank), s)
  {
    var le := ByRank(rank);
    forall x ensures Filter(EqualTo(le, x), s) == Filter(EqualTo(le, x), t) {
      FilterSame(EqualTo(le, x), RankIs(rank, rank(x)), s);
      FilterSame(EqualTo(le, x), RankIs(rank, rank(x)), t);
      assert Filter(RankIs(rank, rank(x)), s) == Filter(RankIs(rank, rank(x)), t);
    }
    SortUnique(le, s, t);
  }
}
