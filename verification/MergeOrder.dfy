/** What a flat save does to the wallet list, as a list: every wallet keeps its place, is replaced
    where it stands, or is dropped, and new wallets come last. */
module MergeOrder {
  import opened Wrappers
  import opened Seqs
  import opened StableSort
  import opened Vault
  import opened FlatShape

  /** Ids are unique and the new ones are fresh. */
  ghost predicate Good(t: Target) {
    UniqueIds(t.Wallets()) && Fresh(t.ids, t.Wallets())
  }

  /** What stands where the wallet `w` stood. */
  function Image(flat: Payload, t: Target, w: Entry): seq<Entry> {
    if w.GroupKey() != t.group || w.kind.Xelis? then [w]
    else if t.Prev(w.kind) == Some(w) then AsList(t.Rebuilt(flat, w.kind))
    else []
  }

  function ImageOf(flat: Payload, t: Target): Entry -> seq<Entry> {
    (w: Entry) => Image(flat, t, w)
  }

  function Images(flat: Payload, t: Target): seq<Entry> {
    FlatMap(ImageOf(flat, t), t.Wallets())
  }

  function NewOne(flat: Payload, t: Target, kind: Kind): seq<Entry> {
    if t.Prev(kind).None? then AsList(t.Rebuilt(flat, kind)) else []
  }

  function Added(flat: Payload, t: Target): seq<Entry> {
    NewOne(flat, t, Bip39) + NewOne(flat, t, Xmr) + NewOne(flat, t, Zph) + NewOne(flat, t, Zano)
  }

  /** The merged list without any sorting: images in the old order, then the new entries. */
  function InPlace(flat: Payload, t: Target): seq<Entry> {
    Images(flat, t) + Added(flat, t)
  }

  lemma RebuiltShape(flat: Payload, t: Target, kind: Kind)
    requires t.Rebuilt(flat, kind).Some?
    ensures kind.Flat()
    ensures var e := t.Rebuilt(flat, kind).value;
            && e.kind == kind && e.groupId == Some(t.group) && e.GroupKey() == t.group
            && Some(e.seed) == FlatSeed(flat, kind)
            && e.id == (if t.Prev(kind).Some? then t.Prev(kind).value.id else t.ids.For(kind))
  {
  }

  lemma PrevIsInTarget(t: Target, kind: Kind)
    requires t.Prev(kind).Some?
    ensures var p := t.Prev(kind).value; p in t.Wallets() && p.kind == kind && p.GroupKey() == t.group
  {
    assert OfKindIn(kind, t.group)(t.Prev(kind).value);
  }

  lemma ImageShape(flat: Payload, t: Target, w: Entry)
    requires w in t.Wallets()
    ensures |Image(flat, t, w)| <= 1
    ensures forall e :: e in Image(flat, t, w) ==> e.id == w.id && e.kind == w.kind && e.GroupKey() == w.GroupKey()
  {
    if t.Rebuilt(flat, w.kind).Some? {
      RebuiltShape(flat, t, w.kind);
    }
  }

  lemma NewOneShape(flat: Payload, t: Target, kind: Kind)
    requires Good(t)
    ensures |NewOne(flat, t, kind)| <= 1
    ensures forall e :: e in NewOne(flat, t, kind) ==>
        e.kind == kind && e.GroupKey() == t.group && e.id == t.ids.For(kind) && kind.Flat()
    ensures forall e, w :: e in NewOne(flat, t, kind) && w in t.Wallets() ==> e.id != w.id
  {
    if t.Rebuilt(flat, kind).Some? {
      RebuiltShape(flat, t, kind);
    }
  }

  // Positions.

  lemma {:induction false} PositionInAt(ws: seq<Entry>, n: nat, i: nat)
    requires UniqueIds(ws) && i < n <= |ws|
    ensures PositionIn(ws, n, ws[i].id) == i
  {
    if i < n - 1 {
      PositionInAt(ws, n - 1, i);
    }
  }

  lemma PositionAt(ws: seq<Entry>, e: Entry, i: nat)
    requires UniqueIds(ws) && i < |ws| && e.id == ws[i].id
    ensures Position(ws)(e) == i
  {
    PositionInAt(ws, |ws|, i);
  }

  lemma PositionOfNew(ws: seq<Entry>, e: Entry)
    requires forall w :: w in ws ==> w.id != e.id
    ensures Position(ws)(e) == |ws|
  {
  }

  function AtPosition(ws: seq<Entry>, k: int): Entry -> bool {
    RankIs(Position(ws), k)
  }

  // The images are sorted by position, and so are the new entries after them.

  ghost predicate Increasing<U>(rank: U -> int, s: seq<U>) {
    forall i, j :: 0 <= i < j < |s| ==> rank(s[i]) < rank(s[j])
  }

  ghost predicate Below<U>(rank: U -> int, s: seq<U>, n: int) {
    forall i :: 0 <= i < |s| ==> rank(s[i]) < n
  }

  /** Each element is replaced by at most one, of the rank of its place. */
  ghost predicate Placed<T, U>(rank: U -> int, f: T -> seq<U>, s: seq<T>) {
    forall i :: 0 <= i < |s| ==> AllRank(rank, f(s[i]), i)
  }

  ghost predicate AllRank<U>(rank: U -> int, s: seq<U>, k: int) {
    |s| <= 1 && forall j :: 0 <= j < |s| ==> rank(s[j]) == k
  }

  lemma {:induction false} PlacedIncreasing<T, U>(rank: U -> int, f: T -> seq<U>, s: seq<T>)
    requires Placed(rank, f, s)
    ensures Increasing(rank, FlatMap(f, s)) && Below(rank, FlatMap(f, s), |s|)
  {
    if s != [] {
      var front, x := s[..|s| - 1], s[|s| - 1];
      PlacedIncreasing(rank, f, front);
      assert AllRank(rank, f(x), |front|);
    }
  }

  /** So exactly what replaced the `k`-th element has rank `k`. */
  lemma {:induction false} PlacedAt<T, U(!new)>(rank: U -> int, f: T -> seq<U>, s: seq<T>, k: nat)
    requires Placed(rank, f, s)
    ensures Filter(RankIs(rank, k), FlatMap(f, s)) == if k < |s| then f(s[k]) else []
  {
    if s != [] {
      var front, x := s[..|s| - 1], s[|s| - 1];
      PlacedAt(rank, f, front, k);
      FilterConcat(RankIs(rank, k), FlatMap(f, front), f(x));
      assert AllRank(rank, f(x), |front|);
      RankedAll(rank, f(x), |front|, k);
      if k == |front| {
        assert [] + f(x) == f(x);
      }
    }
  }

  lemma RankedAll<U(!new)>(rank: U -> int, s: seq<U>, i: int, k: int)
    requires AllRank(rank, s, i)
    ensures Filter(RankIs(rank, k), s) == if k == i then s else []
  {
    if k == i {
      FilterAll(RankIs(rank, k), s);
    } else {
      FilterNone(RankIs(rank, k), s);
    }
  }

  lemma ImagesPlaced(flat: Payload, t: Target)
    requires UniqueIds(t.Wallets())
    ensures Placed(Position(t.Wallets()), ImageOf(flat, t), t.Wallets())
  {
    var ws := t.Wallets();
    forall i | 0 <= i < |ws| ensures AllRank(Position(ws), ImageOf(flat, t)(ws[i]), i) {
      ImageRank(flat, t, i);
    }
  }

  lemma ImageRank(flat: Payload, t: Target, i: nat)
    requires UniqueIds(t.Wallets()) && i < |t.Wallets()|
    ensures AllRank(Position(t.Wallets()), Image(flat, t, t.Wallets()[i]), i)
  {
    var image := Image(flat, t, t.Wallets()[i]);
    ImageShape(flat, t, t.Wallets()[i]);
    hide Image, Position;
    forall j | 0 <= j < |image| ensures Position(t.Wallets())(image[j]) == i {
      assert image[j] in image;
      PositionAt(t.Wallets(), image[j], i);
    }
  }

  lemma AddedPositions(flat: Payload, t: Target)
    requires Good(t)
    ensures forall e :: e in Added(flat, t) ==> Position(t.Wallets())(e) == |t.Wallets()|
  {
    NewOneShape(flat, t, Bip39);
    NewOneShape(flat, t, Xmr);
    NewOneShape(flat, t, Zph);
    NewOneShape(flat, t, Zano);
    forall e | e in Added(flat, t) ensures Position(t.Wallets())(e) == |t.Wallets()| {
      PositionOfNew(t.Wallets(), e);
    }
  }

  lemma RankedConcat(rank: Entry -> int, a: seq<Entry>, b: seq<Entry>, n: int)
    requires Increasing(rank, a) && Below(rank, a, n)
    requires forall e :: e in b ==> rank(e) == n
    ensures Sorted(ByRank(rank), a + b)
    ensures forall i, j :: 0 <= i < j < |a + b| && rank((a + b)[i]) == rank((a + b)[j]) ==> |a| <= i
  {
    var s := a + b;
    forall i, j | 0 <= i < j < |s| ensures rank(s[i]) <= rank(s[j]) && (rank(s[i]) == rank(s[j]) ==> |a| <= i) {
      if |a| <= j {
        assert s[j] in b;
      }
      if i < |a| {
        assert rank(a[i]) < n;
      } else {
        assert s[i] in b;
      }
    }
  }

  lemma InPlaceSorted(flat: Payload, t: Target)
    requires Good(t)
    ensures Sorted(ByRank(Position(t.Wallets())), InPlace(flat, t))
  {
    ImagesPlaced(flat, t);
    PlacedIncreasing(Position(t.Wallets()), ImageOf(flat, t), t.Wallets());
    AddedPositions(flat, t);
    RankedConcat(Position(t.Wallets()), Images(flat, t), Added(flat, t), |t.Wallets()|);
  }

  // Both lists hold the same entries at each position, in the same order.

  /** Among the wallets a selector keeps, the one at position `k`. */
  lemma KeptAt(ws: seq<Entry>, q: Entry -> bool, k: nat)
    requires UniqueIds(ws)
    ensures Filter(AtPosition(ws, k), Filter(q, ws)) == if k < |ws| && q(ws[k]) then [ws[k]] else []
  {
    forall i | 0 <= i < |ws| ensures Position(ws)(ws[i]) == i {
      PositionAt(ws, ws[i], i);
    }
    RankedKept(Position(ws), q, ws, k);
  }

  lemma RankedKept<T(!new)>(rank: T -> int, q: T -> bool, s: seq<T>, k: nat)
    requires forall i :: 0 <= i < |s| ==> rank(s[i]) == i
    ensures Filter(RankIs(rank, k), Filter(q, s)) == if k < |s| && q(s[k]) then [s[k]] else []
  {
    var f := Keeping(q);
    assert forall i :: 0 <= i < |s| ==> f(s[i]) == (if q(s[i]) then [s[i]] else []);
    hide Filter, FlatMap, Keeping, RankIs;
    assert Placed(rank, f, s);
    FilterIsFlatMap(q, s);
    PlacedAt(rank, f, s, k);
  }

  /** What the rebuilt entry of one kind puts at position `k`. */
  function PartAt(flat: Payload, t: Target, kind: Kind, k: nat): seq<Entry> {
    if k < |t.Wallets()| then (if t.Prev(kind) == Some(t.Wallets()[k]) then AsList(t.Rebuilt(flat, kind)) else [])
    else NewOne(flat, t, kind)
  }

  lemma RebuiltAt(flat: Payload, t: Target, kind: Kind, k: nat)
    requires Good(t) && k <= |t.Wallets()|
    ensures Filter(AtPosition(t.Wallets(), k), AsList(t.Rebuilt(flat, kind))) == PartAt(flat, t, kind, k)
  {
    var ws := t.Wallets();
    var r := t.Rebuilt(flat, kind);
    if r.Some? {
      RebuiltShape(flat, t, kind);
      if t.Prev(kind).Some? {
        PrevIsInTarget(t, kind);
        var i :| 0 <= i < |ws| && ws[i] == t.Prev(kind).value;
        PositionAt(ws, r.value, i);
        if k < |ws| && t.Prev(kind) == Some(ws[k]) {
          PositionAt(ws, r.value, k);
        }
      } else {
        NewOneShape(flat, t, kind);
        assert r.value in NewOne(flat, t, kind);
        PositionOfNew(ws, r.value);
      }
    }
  }

  lemma FilterFour(p: Entry -> bool, a: seq<Entry>, b: seq<Entry>, c: seq<Entry>, d: seq<Entry>)
    ensures Filter(p, a + b + c + d) == Filter(p, a) + Filter(p, b) + Filter(p, c) + Filter(p, d)
  {
    FilterConcat(p, a, b);
    FilterConcat(p, a + b, c);
    FilterConcat(p, a + b + c, d);
  }

  lemma OnlyItsKind(t: Target, kind: Kind, w: Entry)
    ensures t.Prev(kind) == Some(w) ==> w.kind == kind
  {
    if t.Prev(kind).Some? {
      PrevIsInTarget(t, kind);
    }
  }

  lemma PartsAt(flat: Payload, t: Target, k: nat)
    requires k <= |t.Wallets()|
    ensures PartAt(flat, t, Bip39, k) + PartAt(flat, t, Xmr, k) + PartAt(flat, t, Zph, k) + PartAt(flat, t, Zano, k)
         == if k < |t.Wallets()| then PartAt(flat, t, t.Wallets()[k].kind, k) else Added(flat, t)
  {
    if k < |t.Wallets()| {
      var w := t.Wallets()[k];
      forall kind: Kind | kind != w.kind ensures PartAt(flat, t, kind, k) == [] {
        OnlyItsKind(t, kind, w);
      }
      assert !w.kind.Flat() ==> t.Rebuilt(flat, w.kind).None?;
    }
  }

  lemma RebuiltListAt(flat: Payload, t: Target, k: nat)
    requires Good(t) && k <= |t.Wallets()|
    ensures Filter(AtPosition(t.Wallets(), k), t.RebuiltList(flat))
         == if k < |t.Wallets()| then PartAt(flat, t, t.Wallets()[k].kind, k) else Added(flat, t)
  {
    hide Filter, AtPosition, AsList, PartAt, Added;
    FilterFour(AtPosition(t.Wallets(), k), AsList(t.Rebuilt(flat, Bip39)), AsList(t.Rebuilt(flat, Xmr)),
               AsList(t.Rebuilt(flat, Zph)), AsList(t.Rebuilt(flat, Zano)));
    RebuiltAt(flat, t, Bip39, k);
    RebuiltAt(flat, t, Xmr, k);
    RebuiltAt(flat, t, Zph, k);
    RebuiltAt(flat, t, Zano, k);
    PartsAt(flat, t, k);
  }

  lemma UnsortedAt(flat: Payload, t: Target, k: nat)
    requires Good(t) && k <= |t.Wallets()|
    ensures Filter(AtPosition(t.Wallets(), k), t.Unsorted(flat))
         == if k < |t.Wallets()| then Image(flat, t, t.Wallets()[k]) else Added(flat, t)
  {
    var ws := t.Wallets();
    var p := AtPosition(ws, k);
    var xelis, outside := OfKindIn(Xelis, t.group), OutsideGroup(t.group);
    var a, b, c := t.RebuiltList(flat), Filter(xelis, ws), Filter(outside, ws);
    FilterConcat(p, a, b);
    FilterConcat(p, a + b, c);
    RebuiltListAt(flat, t, k);
    KeptAt(ws, xelis, k);
    KeptAt(ws, outside, k);
    if k < |ws| {
      ImageByPart(flat, t, ws[k]);
    }
  }

  lemma ImageByPart(flat: Payload, t: Target, w: Entry)
    ensures Image(flat, t, w)
         == (if t.Prev(w.kind) == Some(w) then AsList(t.Rebuilt(flat, w.kind)) else [])
          + (if OfKindIn(Xelis, t.group)(w) then [w] else [])
          + (if OutsideGroup(t.group)(w) then [w] else [])
  {
    if t.Prev(w.kind) == Some(w) {
      PrevIsInTarget(t, w.kind);
    }
  }

  lemma InPlaceAt(flat: Payload, t: Target, k: nat)
    requires Good(t) && k <= |t.Wallets()|
    ensures Filter(AtPosition(t.Wallets(), k), InPlace(flat, t))
         == if k < |t.Wallets()| then Image(flat, t, t.Wallets()[k]) else Added(flat, t)
  {
    var ws := t.Wallets();
    var p := AtPosition(ws, k);
    FilterConcat(p, Images(flat, t), Added(flat, t));
    ImagesPlaced(flat, t);
    PlacedAt(Position(ws), ImageOf(flat, t), ws, k);
    AddedPositions(flat, t);
    if k < |ws| {
      FilterNone(p, Added(flat, t));
    } else {
      FilterAll(p, Added(flat, t));
    }
  }

  /** Rebuilding the group and sorting by old position replaces each wallet where it stands: the
      surviving wallets keep their relative order and the new ones come last. */
  lemma MergeKeepsOrder(flat: Payload, t: Target)
    requires Good(t)
    ensures t.Merged(flat) == InPlace(flat, t)
  {
    var ws := t.Wallets();
    if t.existing.None? {
      assert t.Unsorted(flat) == t.RebuiltList(flat);
    } else {
      InPlaceSorted(flat, t);
      forall k: int
        ensures Filter(RankIs(Position(ws), k), t.Unsorted(flat)) == Filter(RankIs(Position(ws), k), InPlace(flat, t))
      {
        if 0 <= k <= |ws| {
          UnsortedAt(flat, t, k);
          InPlaceAt(flat, t, k);
        } else {
          FilterNone(RankIs(Position(ws), k), t.Unsorted(flat));
          FilterNone(RankIs(Position(ws), k), InPlace(flat, t));
        }
      }
      SortByRankUnique(Position(ws), t.Unsorted(flat), InPlace(flat, t));
    }
  }
}
