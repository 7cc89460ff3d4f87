/** The laws between projection ("get") and merge ("put"), and between migration and projection. */
module LensLaws {
  import opened Wrappers
  import opened Seqs
  import opened Vault
  import opened Contexts
  import opened FlatShape
  import opened MergeOrder
  import opened MergeLaws

  /** A payload with falsy seeds, and what belongs to them, folded to absent. */
  function NormalPayload(flat: Payload): Payload {
    flat.(xmrSeed := Normal(flat.xmrSeed),
          xmrFormat := if Truthy(flat.xmrSeed) then flat.xmrFormat else None,
          xmrHeight := if Truthy(flat.xmrSeed) then flat.xmrHeight else None,
          zphSeed := Normal(flat.zphSeed),
          zphHeight := if Truthy(flat.zphSeed) then flat.zphHeight else None,
          zanoSeed := Normal(flat.zanoSeed),
          zanoPassphrase := if Truthy(flat.zanoSeed) then Normal(flat.zanoPassphrase) else None)
  }

  // project ∘ migrate.

  /** A migrated vault reads back as the payload it came from, whichever wallet is open. */
  lemma ProjectMigrate(v2: Payload, active: Option<string>, now: int, ids: FreshIds)
    requires Fresh(ids, [])
    ensures ProjectV3ToV2(MigrateV2ToV3(v2, now, ids), active) == NormalPayload(v2)
  {
    hide GroupIdForWallet, ProjectGroup, MigrateV2ToV3;
    var v := MigrateV2ToV3(v2, now, ids);
    MigratedGroup(v2, now, ids);
    GroupIdForWalletIsGroupOf(v, active);
    OneGroup(v.wallets, ids.group, active);
    MigratedKinds(v2, now, ids);
  }

  lemma MigratedGroup(v2: Payload, now: int, ids: FreshIds)
    requires Fresh(ids, [])
    ensures var ws := MigrateV2ToV3(v2, now, ids).wallets;
            ws != [] && UniqueIds(ws) && forall w :: w in ws ==> w.GroupKey() == ids.group
  {
    var ws := MigrateV2ToV3(v2, now, ids).wallets;
    var t := Target(None, ids.group, now, ids);
    assert |ws| > 0;
    MigratedKinds(v2, now, ids);
    hide MigrateV2ToV3;
    MergeKeepsIdsUnique(v2, t);
    forall w | w in ws ensures w.GroupKey() == ids.group {
      InMerged(v2, t, w);
      RebuiltShape(v2, t, w.kind);
    }
  }

  /** With one group, every wallet is in it. */
  lemma OneGroup(ws: seq<Entry>, group: string, active: Option<string>)
    requires ws != [] && forall w :: w in ws ==> w.GroupKey() == group
    ensures GroupOf(ws, active) == Some(group)
  {
    PrimaryIsAGroup(ws);
    if active.Some? {
      var r := Find(HasId(active.value), ws);
      assert r.Some? ==> r.value in ws;
    }
  }

  /** The migrated wallets are exactly what a flat save into an empty vault would write. */
  lemma MigratedKinds(v2: Payload, now: int, ids: FreshIds)
    ensures MigrateV2ToV3(v2, now, ids).wallets == Target(None, ids.group, now, ids).Merged(v2)
    ensures ProjectGroup(MigrateV2ToV3(v2, now, ids), Some(ids.group)) == NormalPayload(v2)
  {
    var t := Target(None, ids.group, now, ids);
    assert t.Merged(v2) == t.RebuiltList(v2);
    assert MigrateV2ToV3(v2, now, ids).wallets == t.RebuiltList(v2);
    FirstOfTarget(v2, t, Bip39);
    FirstOfTarget(v2, t, Xmr);
    FirstOfTarget(v2, t, Zph);
    FirstOfTarget(v2, t, Zano);
  }

  // project ∘ merge.

  /** The fields a rebuilt entry hands back to a projection. */
  lemma RebuiltReads(flat: Payload, t: Target)
    ensures t.Rebuilt(flat, Bip39).Some? && t.Rebuilt(flat, Xmr).Some? == Truthy(flat.xmrSeed)
    ensures t.Rebuilt(flat, Zph).Some? == Truthy(flat.zphSeed) && t.Rebuilt(flat, Zano).Some? == Truthy(flat.zanoSeed)
    ensures var e := t.Rebuilt(flat, Bip39).value;
            e.seed == flat.bip39 && e.derivation == flat.derivation
    ensures Truthy(flat.xmrSeed) ==>
              var e := t.Rebuilt(flat, Xmr).value;
              Some(e.seed) == flat.xmrSeed && e.xmrFormat == flat.xmrFormat && e.restoreHeight == flat.xmrHeight
    ensures Truthy(flat.zphSeed) ==>
              var e := t.Rebuilt(flat, Zph).value;
              Some(e.seed) == flat.zphSeed && e.restoreHeight == flat.zphHeight
    ensures Truthy(flat.zanoSeed) ==>
              var e := t.Rebuilt(flat, Zano).value;
              Some(e.seed) == flat.zanoSeed && e.zanoPassphrase == Normal(flat.zanoPassphrase)
  {
  }

  /** What the group that was written reads back as. */
  lemma PutGetGroup(flat: Payload, t: Target)
    ensures ProjectGroup(MergeAt(flat, t), Some(t.group))
         == NormalPayload(flat).(devFeeAck :=
              flat.devFeeAck.Or(if t.existing.Some? then t.existing.value.devFeeAck else None))
  {
    var v := MergeAt(flat, t);
    FirstOfTarget(flat, t, Bip39);
    FirstOfTarget(flat, t, Xmr);
    FirstOfTarget(flat, t, Zph);
    FirstOfTarget(flat, t, Zano);
    RebuiltReads(flat, t);
    ProjectReads(v, t.group, t.Rebuilt(flat, Bip39), t.Rebuilt(flat, Xmr), t.Rebuilt(flat, Zph), t.Rebuilt(flat, Zano));
    assert LegacyZanoSeedFor(v, Some(t.group)).Some? ==> Truthy(flat.zanoSeed);
  }

  /** A projection from the first wallets of the four kinds. */
  lemma ProjectReads(v: VaultV3, group: string, bip39: Option<Entry>, xmr: Option<Entry>, zph: Option<Entry>,
                     zano: Option<Entry>)
    requires FirstIn(v.wallets, Bip39, group) == bip39 && FirstIn(v.wallets, Xmr, group) == xmr
    requires FirstIn(v.wallets, Zph, group) == zph && FirstIn(v.wallets, Zano, group) == zano
    ensures var p := ProjectGroup(v, Some(group));
            && p.bip39 == (if bip39.Some? then bip39.value.seed else "")
            && p.derivation == (if bip39.Some? then bip39.value.derivation else None)
            && (if xmr.Some? then p.xmrSeed == Some(xmr.value.seed) && p.xmrFormat == xmr.value.xmrFormat
               && p.xmrHeight == xmr.value.restoreHeight
                else p.xmrSeed.None? && p.xmrFormat.None? && p.xmrHeight.None?)
            && (if zph.Some? then p.zphSeed == Some(zph.value.seed) && p.zphHeight == zph.value.restoreHeight
                else p.zphSeed.None? && p.zphHeight.None?)
            && (zano.Some? ==> p.zanoSeed == Some(zano.value.seed) && p.zanoPassphrase == zano.value.zanoPassphrase)
            && (zano.None? && LegacyZanoSeedFor(v, Some(group)).None? ==> p.zanoSeed.None? && p.zanoPassphrase.None?)
            && p.devFeeAck == v.devFeeAck
  {
  }

  /** The save drops the entry of the open wallet itself: a flat wallet that the payload does not
      describe, or a wallet the flat shape has no place for. */
  predicate DropsOpenWallet(flat: Payload, t: Target, active: Option<string>) {
    && Truthy(active) && active != Some("all")
    && var w := Find(HasId(active.value), t.Wallets());
       w.Some? && Image(flat, t, w.value) == []
  }

  /** The primary group a save leaves behind: the one there was, or the written one when no wallet
      is bip39 yet. */
  function PrimaryAfter(t: Target): string {
    if Find(OfKind(Bip39), t.Wallets()).Some? then PrimaryGroup(t.Wallets()).GetOr(t.group) else t.group
  }

  /** After the save, the open wallet is still in the group that was written, unless the save
      dropped it; then the primary group is read instead. */
  lemma GroupAfterSave(flat: Payload, existing: Option<VaultV3>, active: Option<string>, now: int, ids: FreshIds)
    requires existing.Some? ==> UniqueIds(existing.value.wallets)
    requires Fresh(ids, if existing.Some? then existing.value.wallets else [])
    ensures var t := TargetOf(existing, active, now, ids);
            GroupIdForWallet(MergeAt(flat, t), active)
            == Some(if DropsOpenWallet(flat, t, active) then PrimaryAfter(t) else t.group)
  {
    var t := TargetOf(existing, active, now, ids);
    var merged := t.Merged(flat);
    MergeKeepsIdsUnique(flat, t);
    MergeKeepsPrimary(flat, t);
    PrimaryIsAGroup(t.Wallets());
    GroupIdForWalletIsGroupOf(MergeAt(flat, t), active);
    if existing.Some? {
      GroupIdForWalletIsGroupOf(existing.value, active);
    }
    if Truthy(active) && active != Some("all") {
      var id := active.value;
      var before, after := Find(HasId(id), t.Wallets()), Find(HasId(id), merged);
      if before.Some? {
        OpenWalletAfter(flat, t, before.value);
      } else if after.Some? {
        NewWalletAfter(flat, t, after.value);
      }
    }
  }

  lemma OpenWalletAfter(flat: Payload, t: Target, w: Entry)
    requires Good(t) && w in t.Wallets()
    ensures var after := Find(HasId(w.id), t.Merged(flat));
            if Image(flat, t, w) == [] then after.None? else after.Some? && after.value.GroupKey() == w.GroupKey()
  {
    var after := Find(HasId(w.id), t.Merged(flat));
    ImageShape(flat, t, w);
    if Image(flat, t, w) != [] {
      var e := Image(flat, t, w)[0];
      assert e in Image(flat, t, w);
      ImageInMerged(flat, t, w, e);
      MergeKeepsIdsUnique(flat, t);
      FindById(t.Merged(flat), e);
    } else if after.Some? {
      var e := after.value;
      assert HasId(w.id)(e);
      InMerged(flat, t, e);
      if e in t.Wallets() {
        SameIdSameEntry(t.Wallets(), e, w);
      }
      if t.Rebuilt(flat, e.kind) == Some(e) {
        RebuiltShape(flat, t, e.kind);
        var p := t.Prev(e.kind);
        assert p.Some?;
        PrevIsInTarget(t, e.kind);
        SameIdSameEntry(t.Wallets(), p.value, w);
      }
      assert false;
    }
  }

  lemma ImageInMerged(flat: Payload, t: Target, w: Entry, e: Entry)
    requires w in t.Wallets() && e in Image(flat, t, w)
    ensures e in t.Merged(flat)
  {
    ImageShape(flat, t, w);
    InMerged(flat, t, e);
  }

  lemma NewWalletAfter(flat: Payload, t: Target, e: Entry)
    requires Good(t) && e in t.Merged(flat) && forall w :: w in t.Wallets() ==> w.id != e.id
    ensures e.GroupKey() == t.group
  {
    InMerged(flat, t, e);
    RebuiltShape(flat, t, e.kind);
  }

  /** Put-get: what was saved is what is read, up to falsy values and the sticky acknowledgment,
      unless the save dropped the open wallet while another group is primary. */
  lemma PutGet(flat: Payload, existing: Option<VaultV3>, active: Option<string>, now: int, ids: FreshIds)
    requires existing.Some? ==> UniqueIds(existing.value.wallets)
    requires Fresh(ids, if existing.Some? then existing.value.wallets else [])
    requires var t := TargetOf(existing, active, now, ids);
             DropsOpenWallet(flat, t, active) ==> PrimaryAfter(t) == t.group
    ensures ProjectV3ToV2(MergeFlatIntoV3(flat, existing, active, now, ids), active)
         == NormalPayload(flat).(devFeeAck :=
              flat.devFeeAck.Or(if existing.Some? then existing.value.devFeeAck else None))
  {
    GroupAfterSave(flat, existing, active, now, ids);
    PutGetGroup(flat, TargetOf(existing, active, now, ids));
  }

  // merge ∘ project.

  /** The wallet with its group key written out, which is all a faithful save may change. */
  function Explicit(group: string): Entry -> Entry {
    (w: Entry) => if w.GroupKey() == group && w.kind.Flat() then w.(groupId := Some(group)) else w
  }

  /** The entry stores exactly what the flat shape can carry for its kind. */
  predicate Canonical(w: Entry) {
    && w.chain.None? && w.address.None?
    && match w.kind
       case Bip39 => w.xmrFormat.None? && w.restoreHeight.None? && w.sidecarFile.None? && w.zanoPassphrase.None?
       case Xmr => w.seed != "" && w.sidecarFile.Some? && w.derivation.None? && w.zanoPassphrase.None?
       case Zph => w.seed != "" && w.sidecarFile.Some? && w.derivation.None? && w.zanoPassphrase.None?
           && w.xmrFormat.None?
       case Zano => w.seed != "" && w.sidecarFile.Some? && w.derivation.None? && w.xmrFormat.None?
         && w.restoreHeight.None? && w.zanoPassphrase != Some("")
       case _ => false
  }

  /** The group holds a bip39 wallet and otherwise only Xelis wallets and one canonical wallet per
      flat kind, and reads no Zano seed from outside the list. */
  predicate WellFormedGroup(v: VaultV3, group: string) {
    && FirstIn(v.wallets, Bip39, group).Some?
    && (FirstIn(v.wallets, Zano, group).Some? || LegacyZanoSeedFor(v, Some(group)).None?)
    && forall w :: w in v.wallets && w.GroupKey() == group ==>
         w.kind.Xelis? || (FirstIn(v.wallets, w.kind, group) == Some(w) && Canonical(w))
  }

  lemma CanonicalIsRebuilt(v: VaultV3, t: Target, w: Entry)
    requires t.existing == Some(v) && t.Prev(w.kind) == Some(w)
    ensures Canonical(w) <==> t.Rebuilt(ProjectGroup(v, Some(t.group)), w.kind) == Some(w.(groupId := Some(t.group)))
  {
    var flat := ProjectGroup(v, Some(t.group));
    hide Find, PrimaryGroup, NewSidecarFile;
    match w.kind
    case Bip39 => assert flat.bip39 == w.seed && flat.derivation == w.derivation;
    case Xmr => assert flat.xmrSeed == Some(w.seed) && flat.xmrFormat == w.xmrFormat
        && flat.xmrHeight == w.restoreHeight;
    case Zph => assert flat.zphSeed == Some(w.seed) && flat.zphHeight == w.restoreHeight;
    case Zano => assert flat.zanoSeed == Some(w.seed) && flat.zanoPassphrase == w.zanoPassphrase;
    case _ =>
  }

  lemma ExplicitImage(v: VaultV3, t: Target, w: Entry)
    requires t.existing == Some(v) && Good(t) && WellFormedGroup(v, t.group) && w in v.wallets
    ensures Image(ProjectGroup(v, Some(t.group)), t, w) == [Explicit(t.group)(w)]
  {
    if w.GroupKey() == t.group && !w.kind.Xelis? {
      CanonicalIsRebuilt(v, t, w);
    }
  }

  lemma ExplicitImages(v: VaultV3, t: Target)
    requires t.existing == Some(v) && Good(t) && WellFormedGroup(v, t.group)
    ensures Images(ProjectGroup(v, Some(t.group)), t) == Map(Explicit(t.group), v.wallets)
  {
    var flat := ProjectGroup(v, Some(t.group));
    var f, g := ImageOf(flat, t), Explicit(t.group);
    hide Image, ProjectGroup, WellFormedGroup, Explicit;
    forall i | 0 <= i < |v.wallets| ensures f(v.wallets[i]) == [g(v.wallets[i])] {
      ExplicitImage(v, t, v.wallets[i]);
    }
    FlatMapSingles(f, g, v.wallets);
  }

  lemma NothingAdded(v: VaultV3, t: Target)
    requires t.existing == Some(v) && Good(t) && WellFormedGroup(v, t.group)
    ensures Added(ProjectGroup(v, Some(t.group)), t) == []
  {
    var flat := ProjectGroup(v, Some(t.group));
    assert t.Prev(Bip39).Some?;
    assert t.Prev(Xmr).None? ==> flat.xmrSeed.None?;
    assert t.Prev(Zph).None? ==> flat.zphSeed.None?;
    assert t.Prev(Zano).None? ==> flat.zanoSeed.None?;
  }

  /** If the list comes back, then every flat kind that is written was already there. */
  lemma ListComesBackOnlyWhole(v: VaultV3, t: Target, kind: Kind)
    requires t.existing == Some(v) && Good(t)
    requires t.Merged(ProjectGroup(v, Some(t.group))) == Map(Explicit(t.group), v.wallets)
    requires t.Rebuilt(ProjectGroup(v, Some(t.group)), kind).Some?
    ensures t.Prev(kind).Some?
  {
    var flat := ProjectGroup(v, Some(t.group));
    var e := t.Rebuilt(flat, kind).value;
    RebuiltShape(flat, t, kind);
    InMerged(flat, t, e);
    var i :| 0 <= i < |v.wallets| && e == Explicit(t.group)(v.wallets[i]);
    assert v.wallets[i] in v.wallets && v.wallets[i].id == e.id;
  }

  lemma ListComesBackOnlyCanonical(v: VaultV3, t: Target, w: Entry)
    requires t.existing == Some(v) && Good(t)
    requires t.Merged(ProjectGroup(v, Some(t.group))) == Map(Explicit(t.group), v.wallets)
    requires w in v.wallets && w.GroupKey() == t.group && !w.kind.Xelis?
    ensures t.Prev(w.kind) == Some(w) && Canonical(w)
  {
    var flat := ProjectGroup(v, Some(t.group));
    var i :| 0 <= i < |v.wallets| && v.wallets[i] == w;
    var e := Explicit(t.group)(w);
    assert Map(Explicit(t.group), v.wallets)[i] == e;
    assert e in t.Merged(flat);
    InMerged(flat, t, e);
    RebuiltShape(flat, t, e.kind);
    assert t.Prev(w.kind).Some? && t.Prev(w.kind).value.id == w.id;
    PrevIsInTarget(t, w.kind);
    SameIdSameEntry(v.wallets, t.Prev(w.kind).value, w);
    CanonicalIsRebuilt(v, t, w);
  }

  lemma WellFormedComesBack(v: VaultV3, t: Target)
    requires t.existing == Some(v) && Good(t) && WellFormedGroup(v, t.group)
    ensures t.Merged(ProjectGroup(v, Some(t.group))) == Map(Explicit(t.group), v.wallets)
  {
    hide ProjectGroup, WellFormedGroup, Images, Added, Explicit;
    MergeKeepsOrder(ProjectGroup(v, Some(t.group)), t);
    ExplicitImages(v, t);
    NothingAdded(v, t);
  }

  lemma ComesBackWellFormed(v: VaultV3, t: Target)
    requires t.existing == Some(v) && Good(t)
    requires t.Merged(ProjectGroup(v, Some(t.group))) == Map(Explicit(t.group), v.wallets)
    ensures WellFormedGroup(v, t.group)
  {
    ListComesBackOnlyWhole(v, t, Bip39);
    if t.Prev(Zano).None? && LegacyZanoSeedFor(v, Some(t.group)).Some? {
      ListComesBackOnlyWhole(v, t, Zano);
    }
    forall w | w in v.wallets && w.GroupKey() == t.group && !w.kind.Xelis?
      ensures FirstIn(v.wallets, w.kind, t.group) == Some(w) && Canonical(w)
    {
      ListComesBackOnlyCanonical(v, t, w);
    }
  }

  /** Get-put: saving what was read gives back the same wallets in the same order, with the group
      written out, exactly when the group is well formed. */
  lemma GetPut(v: VaultV3, active: Option<string>, now: int, ids: FreshIds)
    requires UniqueIds(v.wallets) && Fresh(ids, v.wallets) && v.wallets != []
    ensures var group := GroupIdForWallet(v, active);
            && group.Some?
            && (MergeFlatIntoV3(ProjectV3ToV2(v, active), Some(v), active, now, ids).wallets
                  == Map(Explicit(group.value), v.wallets)
               <==> WellFormedGroup(v, group.value))
  {
    GroupIdForWalletIsGroupOf(v, active);
    PrimaryIsAGroup(v.wallets);
    var t := TargetOf(Some(v), active, now, ids);
    if WellFormedGroup(v, t.group) {
      WellFormedComesBack(v, t);
    } else if t.Merged(ProjectGroup(v, Some(t.group))) == Map(Explicit(t.group), v.wallets) {
      ComesBackWellFormed(v, t);
    }
  }
}
