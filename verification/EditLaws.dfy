/** What edits that do not go through the flat payload leave alone: renames and repairs change
    nothing that is read, and a removal changes nothing that other contexts read. */
module EditLaws {
  import opened Wrappers
  import opened Seqs
  import opened Vault
  import opened Contexts
  import opened FlatShape
  import opened Repair
  import opened RepairLaws
  import opened Crud

  /** Two entries that differ at most in their name and their stored file. */
  predicate ReadAlike(a: Entry, b: Entry) {
    b == a.(name := b.name, sidecarFile := b.sidecarFile)
  }

  ghost predicate AllAlike(a: seq<Entry>, b: seq<Entry>) {
    |a| == |b| && forall i :: 0 <= i < |a| ==> ReadAlike(a[i], b[i])
  }

  ghost predicate BlindToNames(p: Entry -> bool) {
    forall a, b :: ReadAlike(a, b) ==> p(a) == p(b)
  }

  predicate FoundSame(x: Option<Entry>, y: Option<Entry>) {
    x.Some? == y.Some? && (x.Some? ==> ReadAlike(x.value, y.value))
  }

  lemma {:induction false} FindAlike(p: Entry -> bool, a: seq<Entry>, b: seq<Entry>)
    requires BlindToNames(p) && AllAlike(a, b)
    ensures FoundSame(Find(p, a), Find(p, b))
  {
    if a != [] {
      assert ReadAlike(a[0], b[0]);
      FindAlike(p, a[1..], b[1..]);
    }
  }

  lemma GroupsAlike(a: seq<Entry>, b: seq<Entry>, active: Option<string>)
    requires AllAlike(a, b)
    ensures PrimaryGroup(a) == PrimaryGroup(b) && GroupOf(a, active) == GroupOf(b, active)
  {
    FindAlike(OfKind(Bip39), a, b);
    if active.Some? {
      FindAlike(HasId(active.value), a, b);
    }
    if a != [] {
      assert ReadAlike(a[0], b[0]);
    }
  }

  lemma SelectionAlike(a: seq<Entry>, b: seq<Entry>, kind: Kind, group: Option<string>)
    requires AllAlike(a, b)
    ensures FoundSame(Find(InSelection(kind, group), a), Find(InSelection(kind, group), b))
  {
    FindAlike(InSelection(kind, group), a, b);
  }

  /** A payload is read from everything but names and files. */
  lemma PayloadIgnoresNames(v: VaultV3, ws: seq<Entry>, active: Option<string>)
    requires UniqueIds(v.wallets) && AllAlike(v.wallets, ws)
    ensures ProjectV3ToV2(v.(wallets := ws), active) == ProjectV3ToV2(v, active)
  {
    hide GroupIdForWallet, PrimaryGroup, GroupOf;
    var r := v.(wallets := ws);
    UniqueAlike(v.wallets, ws);
    GroupIdForWalletIsGroupOf(v, active);
    GroupIdForWalletIsGroupOf(r, active);
    GroupsAlike(v.wallets, ws, active);
    var group := GroupIdForWallet(v, active);
    assert GroupIdForWallet(r, active) == group;
    GroupAlike(v, ws, group);
  }

  lemma UniqueAlike(a: seq<Entry>, b: seq<Entry>)
    requires UniqueIds(a) && AllAlike(a, b)
    ensures UniqueIds(b)
  {
    forall i, j | 0 <= i < j < |b| ensures b[i].id != b[j].id {
      assert ReadAlike(a[i], b[i]) && ReadAlike(a[j], b[j]);
    }
  }

  lemma GroupAlike(v: VaultV3, ws: seq<Entry>, group: Option<string>)
    requires AllAlike(v.wallets, ws)
    ensures ProjectGroup(v.(wallets := ws), group) == ProjectGroup(v, group)
  {
    hide AllAlike, Find, InSelection, PrimaryGroup;
    SelectionAlike(v.wallets, ws, Bip39, group);
    SelectionAlike(v.wallets, ws, Xmr, group);
    SelectionAlike(v.wallets, ws, Zph, group);
    SelectionAlike(v.wallets, ws, Zano, group);
    GroupsAlike(v.wallets, ws, None);
  }

  /** Renaming a wallet changes no payload, whichever wallet is open. */
  lemma RenameIsNotRead(v: VaultV3, id: string, name: string, active: Option<string>)
    requires UniqueIds(v.wallets)
    ensures ProjectV3ToV2(RenameWalletEntry(v, id, name), active) == ProjectV3ToV2(v, active)
  {
    var ws := RenameWalletEntry(v, id, name).wallets;
    assert AllAlike(v.wallets, ws);
    hide ProjectV3ToV2;
    PayloadIgnoresNames(v, ws, active);
  }

  /** The repair changes no payload either: only which file a sidecar opens. */
  lemma RepairIsNotRead(v: VaultV3, rank: string -> real, active: Option<string>)
    requires UniqueIds(v.wallets)
    ensures ProjectV3ToV2(Repaired(v, rank), active) == ProjectV3ToV2(v, active)
  {
    hide ProjectV3ToV2, Repaired, Order;
    RepairIsAfter(v, rank);
    var ws := Map(RepairLaws.After(v.wallets, Order(v, rank)), v.wallets);
    AfterIsAlike(v.wallets, Order(v, rank));
    PayloadIgnoresNames(v, ws, active);
  }

  lemma AfterIsAlike(ws: seq<Entry>, order: (Entry, Entry) -> bool)
    ensures AllAlike(ws, Map(RepairLaws.After(ws, order), ws))
  {
    hide IsMoved;
  }

  // Removal.

  lemma {:induction false} FindOther(p: Entry -> bool, id: string, ws: seq<Entry>)
    requires forall w :: w in ws && w.id == id ==> !p(w)
    ensures Find(p, Filter(OtherThan(id), ws)) == Find(p, ws)
  {
    if ws != [] {
      var h, rest := ws[0], ws[1..];
      assert ws == [h] + rest;
      var kept := Filter(OtherThan(id), rest);
      FindOther(p, id, rest);
      FilterCons(OtherThan(id), h, rest);
      FindCons(p, h, kept);
      FindCons(p, h, rest);
      hide Find, Filter;
      assert OtherThan(id)(h) || !p(h);
      if OtherThan(id)(h) {
        assert Filter(OtherThan(id), ws) == [h] + kept;
      } else {
        assert Filter(OtherThan(id), ws) == kept;
      }
    }
  }

  lemma FindCons(p: Entry -> bool, h: Entry, s: seq<Entry>)
    ensures Find(p, [h] + s) == if p(h) then Some(h) else Find(p, s)
  {
    assert ([h] + s)[1..] == s;
  }

  /** Removing a wallet leaves what is read for a wallet of any other context unchanged, but for
      Zano; and Zano exactly when the other context has a Zano entry of its own, or there is no
      vault-wide seed, or the removal does not change whether that context is the primary one. */
  lemma RemovalIsIsolated(v: VaultV3, w: Entry, b: Entry)
    requires UniqueIds(v.wallets) && w in v.wallets && b in v.wallets && w.GroupKey() != b.GroupKey()
    requires b.id != "" && b.id != "all"
    ensures var after, group := RemoveWalletEntry(v, w.id), b.GroupKey();
            var p, q := ProjectV3ToV2(v, Some(b.id)), ProjectV3ToV2(after, Some(b.id));
            && q == p.(zanoSeed := q.zanoSeed, zanoPassphrase := q.zanoPassphrase)
            && (q == p <==> || FirstIn(v.wallets, Zano, group).Some?
                            || !Truthy(v.zanoSeed)
                            || (PrimaryGroup(v.wallets) == Some(group) <==> PrimaryGroup(after.wallets) == Some(group)))
  {
    var after := RemoveWalletEntry(v, w.id);
    hide GroupIdForWallet, Find, Filter, UniqueIds;
    FilterUniqueIds(v.wallets, OtherThan(w.id));
    GroupIdForWalletIsGroupOf(v, Some(b.id));
    GroupIdForWalletIsGroupOf(after, Some(b.id));
    FindById(v.wallets, b);
    assert OtherThan(w.id)(b) by {
      DifferentIds(v.wallets, w, b);
    }
    FindById(after.wallets, b);
    ReadTheSame(v, after, w, b.GroupKey());
  }

  lemma DifferentIds(ws: seq<Entry>, w: Entry, b: Entry)
    requires UniqueIds(ws) && w in ws && b in ws && w != b
    ensures w.id != b.id
  {
  }

  lemma ReadTheSame(v: VaultV3, after: VaultV3, w: Entry, group: string)
    requires UniqueIds(v.wallets) && w in v.wallets && w.GroupKey() != group && after == RemoveWalletEntry(v, w.id)
    ensures var p, q := ProjectGroup(v, Some(group)), ProjectGroup(after, Some(group));
            && q == p.(zanoSeed := q.zanoSeed, zanoPassphrase := q.zanoPassphrase)
            && (q == p <==> || FirstIn(v.wallets, Zano, group).Some?
                            || !Truthy(v.zanoSeed)
                            || (PrimaryGroup(v.wallets) == Some(group) <==> PrimaryGroup(after.wallets) == Some(group)))
  {
    hide Find, Filter, PrimaryGroup, UniqueIds;
    OtherGroupFound(v.wallets, w, Bip39, group);
    OtherGroupFound(v.wallets, w, Xmr, group);
    OtherGroupFound(v.wallets, w, Zph, group);
    OtherGroupFound(v.wallets, w, Zano, group);
  }

  lemma OtherGroupFound(ws: seq<Entry>, w: Entry, kind: Kind, group: string)
    requires UniqueIds(ws) && w in ws && w.GroupKey() != group
    ensures Find(OfKindIn(kind, group), Filter(OtherThan(w.id), ws)) == Find(OfKindIn(kind, group), ws)
  {
    forall x | x in ws && x.id == w.id ensures !OfKindIn(kind, group)(x) {
      SameIdSameEntry(ws, x, w);
    }
    FindOther(OfKindIn(kind, group), w.id, ws);
  }

  /** What the context of a removed wallet reads for its kind, when that wallet was the only one of
      its kind there: nothing for Monero and Zephyr, but for Zano the vault-wide copy of the seed,
      exactly when there is one and the context is the primary one. */
  lemma RemovedKindIsRead(v: VaultV3, w: Entry, b: Entry)
    requires UniqueIds(v.wallets) && w in v.wallets && b in v.wallets && b != w && b.GroupKey() == w.GroupKey()
    requires b.id != "" && b.id != "all" && (w.kind.Xmr? || w.kind.Zph? || w.kind.Zano?)
    requires forall x :: x in v.wallets && x.kind == w.kind && x.GroupKey() == w.GroupKey() ==> x == w
    ensures var after := RemoveWalletEntry(v, w.id);
            FlatSeed(ProjectV3ToV2(after, Some(b.id)), w.kind)
            == if w.kind.Zano? && Truthy(v.zanoSeed) && PrimaryGroup(after.wallets) == Some(w.GroupKey())
               then v.zanoSeed else None
  {
    var after := RemoveWalletEntry(v, w.id);
    FilterUniqueIds(v.wallets, OtherThan(w.id));
    GroupIdForWalletIsGroupOf(after, Some(b.id));
    DifferentIds(v.wallets, w, b);
    assert OtherThan(w.id)(b);
    hide GroupIdForWallet, Find, Filter, UniqueIds, PrimaryGroup;
    FindById(after.wallets, b);
    NoneLeft(v.wallets, w);
  }

  lemma NoneLeft(ws: seq<Entry>, w: Entry)
    requires forall x :: x in ws && x.kind == w.kind && x.GroupKey() == w.GroupKey() ==> x == w
    ensures FirstIn(Filter(OtherThan(w.id), ws), w.kind, w.GroupKey()).None?
  {
    var kept := Filter(OtherThan(w.id), ws);
    assert forall x :: x in kept ==> !OfKindIn(w.kind, w.GroupKey())(x);
  }

  /** A rename gives the wallet with the id its new name, and changes nothing else. */
  lemma RenameIsExact(v: VaultV3, id: string, name: string)
    ensures var after := RenameWalletEntry(v, id, name);
            && |after.wallets| == |v.wallets| && after == v.(wallets := after.wallets)
            && (forall i :: 0 <= i < |v.wallets| && v.wallets[i].id != id ==> after.wallets[i] == v.wallets[i])
            && (forall i :: 0 <= i < |v.wallets| && v.wallets[i].id == id ==> after.wallets[i].name == name)
            && (forall i :: 0 <= i < |v.wallets| ==> v.wallets[i].(name := "") == after.wallets[i].(name := ""))
  {
  }

  /** A removal takes exactly that wallet, and the active context never names a wallet that is
      gone because of it. */
  lemma RemovalIsExact(v: VaultV3, id: string)
    requires UniqueIds(v.wallets) && id != "all"
    ensures var after := RemoveWalletEntry(v, id);
            && (forall w :: w in after.wallets <==> w in v.wallets && w.id != id)
            && UniqueIds(after.wallets)
            && after.lastActive != Some(id)
            && (v.lastActive != Some(id) ==> after.lastActive == v.lastActive)
            && after.zanoSeed == v.zanoSeed
  {
    FilterUniqueIds(v.wallets, OtherThan(id));
  }
}
