/** What a flat save keeps: ids, the wallets of other contexts, Xelis wallets, the primary group,
    and what every other context reads. */
module MergeLaws {
  import opened Wrappers
  import opened Seqs
  import opened StableSort
  import opened Vault
  import opened Contexts
  import opened FlatShape
  import opened MergeOrder

  lemma InRebuiltList(flat: Payload, t: Target, e: Entry)
    ensures e in t.RebuiltList(flat) <==> t.Rebuilt(flat, e.kind) == Some(e)
  {
    var a, b := AsList(t.Rebuilt(flat, Bip39)), AsList(t.Rebuilt(flat, Xmr));
    var c, d := AsList(t.Rebuilt(flat, Zph)), AsList(t.Rebuilt(flat, Zano));
    assert e in t.RebuiltList(flat) <==> e in a || e in b || e in c || e in d;
  }

  lemma InUnsorted(flat: Payload, t: Target, e: Entry)
    ensures e in t.Unsorted(flat) <==>
            || (e in t.Wallets() && (e.GroupKey() != t.group || e.kind.Xelis?))
            || t.Rebuilt(flat, e.kind) == Some(e)
  {
    InRebuiltList(flat, t, e);
    var b, c := Filter(OfKindIn(Xelis, t.group), t.Wallets()), Filter(OutsideGroup(t.group), t.Wallets());
    assert e in b <==> e in t.Wallets() && e.kind.Xelis? && e.GroupKey() == t.group;
    assert e in c <==> e in t.Wallets() && e.GroupKey() != t.group;
    assert e in t.Unsorted(flat) <==> e in t.RebuiltList(flat) || e in b || e in c;
  }

  /** Exactly which entries the merged list holds. */
  lemma InMerged(flat: Payload, t: Target, e: Entry)
    ensures e in t.Merged(flat) <==>
            || (e in t.Wallets() && (e.GroupKey() != t.group || e.kind.Xelis?))
            || t.Rebuilt(flat, e.kind) == Some(e)
  {
    InUnsorted(flat, t, e);
    SortPermutes(ByRank(Position(t.Wallets())), t.Unsorted(flat));
  }

  lemma AddedIdsDistinct(flat: Payload, t: Target)
    requires Good(t)
    ensures UniqueIds(Added(flat, t))
  {
    hide NewOne;
    NewOneShape(flat, t, Bip39);
    NewOneShape(flat, t, Xmr);
    NewOneShape(flat, t, Zph);
    NewOneShape(flat, t, Zano);
  }

  lemma RankedUnique(ws: seq<Entry>, a: seq<Entry>, b: seq<Entry>)
    requires Increasing(Position(ws), a) && Below(Position(ws), a, |ws|)
    requires (forall e :: e in b ==> Position(ws)(e) == |ws|) && UniqueIds(b)
    ensures UniqueIds(a + b)
  {
    var rank, s := Position(ws), a + b;
    RankedConcat(rank, a, b, |ws|);
    forall i, j | 0 <= i < j < |s| ensures s[i].id != s[j].id {
      if |a| <= i {
        assert s[i] == b[i - |a|] && s[j] == b[j - |a|];
      } else {
        assert rank(s[i]) != rank(s[j]);
      }
    }
  }

  /** Ids stay unique. */
  lemma MergeKeepsIdsUnique(flat: Payload, t: Target)
    requires Good(t)
    ensures UniqueIds(t.Merged(flat))
  {
    MergeKeepsOrder(flat, t);
    ImagesPlaced(flat, t);
    AddedPositions(flat, t);
    AddedIdsDistinct(flat, t);
    PlacedIncreasing(Position(t.Wallets()), ImageOf(flat, t), t.Wallets());
    RankedUnique(t.Wallets(), Images(flat, t), Added(flat, t));
  }

  /** A selector that cannot tell a wallet from what stands in its place keeps the same list. */
  lemma FilterMerged(flat: Payload, t: Target, p: Entry -> bool)
    requires Good(t)
    requires forall w :: w in t.Wallets() ==> Filter(p, Image(flat, t, w)) == Filter(p, [w])
    requires forall e :: e in Added(flat, t) ==> !p(e)
    ensures Filter(p, t.Merged(flat)) == Filter(p, t.Wallets())
  {
    MergeKeepsOrder(flat, t);
    FilterConcat(p, Images(flat, t), Added(flat, t));
    FilterNone(p, Added(flat, t));
    var ws, f := t.Wallets(), ImageOf(flat, t);
    hide Filter, Image, Added;
    forall i | 0 <= i < |ws| ensures KeptAlike(p, f, ws[i]) {
      assert ws[i] in ws;
    }
    FilterFlatMap(p, f, ws);
  }

  lemma AddedShape(flat: Payload, t: Target, e: Entry)
    requires Good(t) && e in Added(flat, t)
    ensures e.GroupKey() == t.group && e.kind.Flat()
  {
    NewOneShape(flat, t, Bip39);
    NewOneShape(flat, t, Xmr);
    NewOneShape(flat, t, Zph);
    NewOneShape(flat, t, Zano);
  }

  /** The wallets outside the target group are carried through as they are, in order. */
  lemma OtherGroupsUntouched(flat: Payload, t: Target, p: Entry -> bool)
    requires Good(t)
    requires forall e: Entry :: e.GroupKey() == t.group ==> !p(e)
    ensures Filter(p, t.Merged(flat)) == Filter(p, t.Wallets())
  {
    forall w | w in t.Wallets() ensures Filter(p, Image(flat, t, w)) == Filter(p, [w]) {
      if w.GroupKey() == t.group {
        ImageShape(flat, t, w);
        FilterNone(p, Image(flat, t, w));
      }
    }
    forall e | e in Added(flat, t) ensures !p(e) {
      AddedShape(flat, t, e);
    }
    FilterMerged(flat, t, p);
  }

  /** No payload can touch the Xelis wallets: the exact sub-list survives, in every context. */
  lemma XelisCarriedThrough(flat: Payload, t: Target)
    requires Good(t)
    ensures Filter(OfKind(Xelis), t.Merged(flat)) == Filter(OfKind(Xelis), t.Wallets())
  {
    var p := OfKind(Xelis);
    forall w | w in t.Wallets() ensures Filter(p, Image(flat, t, w)) == Filter(p, [w]) {
      ImageShape(flat, t, w);
      if !w.kind.Xelis? {
        FilterNone(p, Image(flat, t, w));
      }
    }
    forall e | e in Added(flat, t) ensures !p(e) {
      AddedShape(flat, t, e);
    }
    FilterMerged(flat, t, p);
  }

  // What each context's first wallet of a kind is afterwards.

  lemma FirstOfOtherGroup(flat: Payload, t: Target, kind: Kind, group: string)
    requires Good(t) && group != t.group
    ensures FirstIn(t.Merged(flat), kind, group) == FirstIn(t.Wallets(), kind, group)
  {
    var p := OfKindIn(kind, group);
    OtherGroupsUntouched(flat, t, p);
    FindIsFirst(p, t.Merged(flat));
    FindIsFirst(p, t.Wallets());
  }

  lemma FirstOfTarget(flat: Payload, t: Target, kind: Kind)
    requires kind.Flat()
    ensures FirstIn(t.Merged(flat), kind, t.group) == t.Rebuilt(flat, kind)
  {
    var p := OfKindIn(kind, t.group);
    var r := FirstIn(t.Merged(flat), kind, t.group);
    if r.Some? {
      assert p(r.value);
      InMerged(flat, t, r.value);
    } else if t.Rebuilt(flat, kind).Some? {
      var e := t.Rebuilt(flat, kind).value;
      RebuiltShape(flat, t, kind);
      InMerged(flat, t, e);
    }
  }

  // The primary group.

  lemma FirstBip39InGroup(ws: seq<Entry>, n: nat, group: string)
    requires n < |ws| && ws[n].kind.Bip39? && ws[n].GroupKey() == group
    requires forall i :: 0 <= i < n ==> !ws[i].kind.Bip39?
    ensures FirstIn(ws, Bip39, group) == Some(ws[n])
  {
    var p := OfKindIn(Bip39, group);
    assert ws == ws[..n] + ws[n..];
    FindConcat(p, ws[..n], ws[n..]);
  }

  function KeyOf(): Entry -> string {
    (w: Entry) => w.GroupKey()
  }

  /** The first bip39 wallet of all is the first of its group, so the save keeps it. */
  lemma FirstBip39Image(flat: Payload, t: Target, i: nat)
    requires i < |t.Wallets()| && Find(OfKind(Bip39), t.Wallets()[..i]).None?
    ensures SameKey(KeyOf(), Find(OfKind(Bip39), [t.Wallets()[i]]), Find(OfKind(Bip39), Image(flat, t, t.Wallets()[i])))
  {
    var ws := t.Wallets();
    var front, w := ws[..i], ws[i];
    ImageShape(flat, t, w);
    if w.kind.Bip39? {
      forall j | 0 <= j < i ensures !ws[j].kind.Bip39? {
        assert front[j] in front;
      }
      FirstBip39InGroup(ws, i, w.GroupKey());
      assert |Image(flat, t, w)| == 1;
    }
  }

  lemma FirstBip39OfImages(flat: Payload, t: Target)
    ensures SameKey(KeyOf(), Find(OfKind(Bip39), t.Wallets()), Find(OfKind(Bip39), Images(flat, t)))
  {
    var p, f, ws := OfKind(Bip39), ImageOf(flat, t), t.Wallets();
    hide Find, Image, SameKey;
    forall i | 0 <= i < |ws| ensures FoundAlike(p, f, KeyOf(), ws, i) {
      if Find(p, ws[..i]).None? {
        FirstBip39Image(flat, t, i);
      }
    }
    FindFlatMap(p, f, KeyOf(), ws);
  }

  /** A save never promotes a wallet: with a bip39 wallet in the vault the primary group stays
      what it was; without one, the save creates it in the group it writes. */
  lemma MergeKeepsPrimary(flat: Payload, t: Target)
    requires Good(t)
    ensures PrimaryGroup(t.Merged(flat))
         == if Find(OfKind(Bip39), t.Wallets()).Some? then PrimaryGroup(t.Wallets()) else Some(t.group)
  {
    MergeKeepsOrder(flat, t);
    var p := OfKind(Bip39);
    FirstBip39OfImages(flat, t);
    FindConcat(p, Images(flat, t), Added(flat, t));
    if Find(p, t.Wallets()).None? {
      var r := t.Rebuilt(flat, Bip39).value;
      RebuiltShape(flat, t, Bip39);
      InMerged(flat, t, r);
      assert p(r);
      var b := Find(p, t.Merged(flat));
      assert b.Some? && p(b.value);
      InMerged(flat, t, b.value);
    }
  }

  // Isolation.

  /** The top-level Zano seed as `LegacyZanoSeedFor` would hand it out. */
  function ReadZano(seed: Option<string>, passphrase: Option<string>): Option<ZanoRead> {
    if Truthy(seed) then Some(ZanoRead(seed.value, Normal(passphrase))) else None
  }

  /** A save leaves everything but Zano unchanged in every other context's payload. */
  lemma IsolationExceptZano(flat: Payload, t: Target, v: VaultV3, group: string)
    requires t.existing == Some(v) && Good(t) && group != t.group
    ensures var before, after := ProjectGroup(v, Some(group)), ProjectGroup(MergeAt(flat, t), Some(group));
            after == before.(devFeeAck := after.devFeeAck, zanoSeed := after.zanoSeed,
                zanoPassphrase := after.zanoPassphrase)
    ensures FirstIn(t.Merged(flat), Zano, group) == FirstIn(v.wallets, Zano, group)
  {
    FirstOfOtherGroup(flat, t, Bip39, group);
    FirstOfOtherGroup(flat, t, Xmr, group);
    FirstOfOtherGroup(flat, t, Zph, group);
    FirstOfOtherGroup(flat, t, Zano, group);
  }

  predicate SameZano(a: Payload, b: Payload) {
    a.zanoSeed == b.zanoSeed && a.zanoPassphrase == b.zanoPassphrase
  }

  ghost predicate ZanoIsolated(flat: Payload, t: Target, v: VaultV3) {
    forall w :: w in v.wallets && w.GroupKey() != t.group ==>
      SameZano(ProjectGroup(v, Some(w.GroupKey())), ProjectGroup(MergeAt(flat, t), Some(w.GroupKey())))
  }

  /** The check before the save: the target is the primary group, or the primary group has a Zano
      entry of its own, or the top-level seed the primary group reads does not change. */
  predicate ZanoIsolationGuard(flat: Payload, t: Target, v: VaultV3) {
    var primary := PrimaryGroup(v.wallets);
    || primary.None?
    || primary == Some(t.group)
    || FirstIn(v.wallets, Zano, primary.value).Some?
    || ReadZano(v.zanoSeed, v.zanoPassphrase)
       == if Find(OfKind(Bip39), v.wallets).Some? then ReadZano(flat.zanoSeed, flat.zanoPassphrase) else None
  }

  /** The Zano wallet that a context other than the target reads changes only in the primary
      group, and there exactly when the top-level seed it falls back to does. */
  lemma ZanoReadElsewhere(flat: Payload, t: Target, v: VaultV3, group: string)
    requires t.existing == Some(v) && Good(t) && group != t.group
    ensures SameZano(ProjectGroup(v, Some(group)), ProjectGroup(MergeAt(flat, t), Some(group)))
       <==> Some(group) != PrimaryGroup(v.wallets) || ZanoIsolationGuard(flat, t, v)
  {
    hide Image, Sort, Find, Filter, Contexts.GroupIdForWallet;
    IsolationExceptZano(flat, t, v, group);
    MergeKeepsPrimary(flat, t);
  }

  /** Zano is isolated exactly when the guard holds. */
  lemma ZanoIsolationExact(flat: Payload, t: Target, v: VaultV3)
    requires t.existing == Some(v) && Good(t)
    ensures ZanoIsolated(flat, t, v) <==> ZanoIsolationGuard(flat, t, v)
  {
    forall w | w in v.wallets && w.GroupKey() != t.group
      ensures SameZano(ProjectGroup(v, Some(w.GroupKey())), ProjectGroup(MergeAt(flat, t), Some(w.GroupKey())))
         <==> Some(w.GroupKey()) != PrimaryGroup(v.wallets) || ZanoIsolationGuard(flat, t, v)
    {
      ZanoReadElsewhere(flat, t, v, w.GroupKey());
    }
    PrimaryIsAGroup(v.wallets);
  }

  /** The same for a wallet: saving on one context leaves what is read for a wallet of any other
      context unchanged, the sticky dev-fee acknowledgment aside. */
  lemma SaveIsIsolated(flat: Payload, v: VaultV3, active: Option<string>, now: int, ids: FreshIds, b: Entry)
    requires UniqueIds(v.wallets) && Fresh(ids, v.wallets)
    requires b in v.wallets && b.id != "" && b.id != "all"
    requires Some(b.GroupKey()) != GroupIdForWallet(v, active)
    ensures var after := MergeFlatIntoV3(flat, Some(v), active, now, ids);
            var t := TargetOf(Some(v), active, now, ids);
            var p, q := ProjectV3ToV2(v, Some(b.id)), ProjectV3ToV2(after, Some(b.id));
            && q == p.(devFeeAck := q.devFeeAck, zanoSeed := q.zanoSeed, zanoPassphrase := q.zanoPassphrase)
            && (ZanoIsolationGuard(flat, t, v) ==> q == p.(devFeeAck := q.devFeeAck))
  {
    var t := TargetOf(Some(v), active, now, ids);
    var after := MergeFlatIntoV3(flat, Some(v), active, now, ids);
    GroupIdForWalletIsGroupOf(v, active);
    PrimaryIsAGroup(v.wallets);
    assert b.GroupKey() != t.group;
    MergeKeepsIdsUnique(flat, t);
    GroupIdForWalletIsGroupOf(v, Some(b.id));
    GroupIdForWalletIsGroupOf(after, Some(b.id));
    FindById(v.wallets, b);
    InMerged(flat, t, b);
    FindById(after.wallets, b);
    IsolationExceptZano(flat, t, v, b.GroupKey());
    ZanoReadElsewhere(flat, t, v, b.GroupKey());
  }
}
