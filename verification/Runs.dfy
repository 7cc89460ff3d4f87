/** Whole runs of vault edits, and the invariant that keeps wallets on files of their own. */
module Runs {
  import opened Wrappers
  import opened Seqs
  import opened Vault
  import opened Contexts
  import opened FlatShape
  import opened MergeOrder
  import opened MergeLaws
  import LensLaws
  import opened FileNames
  import opened Repair
  import opened RepairLaws
  import opened Crud

  /** One edit of the stored vault, as the app makes it. */
  datatype Step =
    | FlatSave(flat: Payload, replaced: Option<Kind>, active: Option<string>, now: int, ids: FreshIds)
    | Forget(kind: Kind, active: Option<string>, now: int, ids: FreshIds)
    | AddWallet(spec: NewWalletSpec, now: int, id: string, freshGroup: string)
    | AddXelis(seed: string, active: Option<string>, now: int, id: string, freshGroup: string)
    | Rename(id: string, name: string)
    | RepairFiles(rank: string -> real)
    | SwitchTo(wallet: string)
    | Remove(id: string)

  function Cleared(flat: Payload, kind: Kind): Payload {
    match kind
    case Xmr => flat.(xmrSeed := None)
    case Zph => flat.(zphSeed := None)
    case Zano => flat.(zanoSeed := None)
    case _ => flat
  }

  function After(v: VaultV3, step: Step): VaultV3 {
    match step
    case FlatSave(flat, _, active, now, ids) => MergeFlatIntoV3(flat, Some(v), active, now, ids)
    case Forget(kind, active, now, ids) => MergeFlatIntoV3(Cleared(ProjectV3ToV2(v, active), kind), Some(v), active,
        now, ids)
    case AddWallet(spec, now, id, group) => AddWalletEntry(v, spec, now, id, group)
    case AddXelis(seed, active, now, id, group) =>
      var r := AddXelisWalletToContext(v, seed, active, now, id, group);
      if r.Ok? then r.value.v else v
    case Rename(id, name) => RenameWalletEntry(v, id, name)
    case RepairFiles(rank) => Repaired(v, rank)
    case SwitchTo(active) => v.(lastActive := Some(active))
    case Remove(id) => RemoveWalletEntry(v, id)
  }

  function RunAll(v: VaultV3, steps: seq<Step>): VaultV3
    decreases |steps|
  {
    if steps == [] then v else RunAll(After(v, steps[0]), steps[1..])
  }

  // What a step must meet.

  /** An id that no wallet and no group has, and that names no legacy file. */
  ghost predicate NewId(id: string, ws: seq<Entry>) {
    id != "active" && forall w :: w in ws ==> w.id != id && w.GroupKey() != id
  }

  ghost predicate AllNew(ids: FreshIds, ws: seq<Entry>) {
    && Fresh(ids, ws) && NewId(ids.bip39, ws) && NewId(ids.xmr, ws) && NewId(ids.zph, ws) && NewId(ids.zano, ws)
    && NotFresh(ids, ids.group) && forall w :: w in ws ==> w.id != ids.group
  }

  /** A Zano seed that is new to the group, saved while the vault carries a vault-wide one: then no
      wallet may be on the legacy file. Without a vault-wide seed nothing is asked. */
  predicate ZanoFileGuard(flat: Payload, t: Target) {
    t.Prev(Zano).None? && Truthy(flat.zanoSeed) && t.existing.Some? && Truthy(t.existing.value.zanoSeed) ==>
        forall w :: w in t.Wallets() && w.kind.Zano? ==> w.File() != Some(LEGACY_ZANO_FILE)
  }

  /** What a step must meet for the files to stay apart: new ids are new, and an added wallet joins
      a group only to fill its slot; with `zano`, also that Zano's legacy file is not handed out
      twice. */
  ghost predicate Allowed(v: VaultV3, step: Step, zano: bool) {
    match step
    case FlatSave(flat, _, active, now, ids) =>
      AllNew(ids, v.wallets) && (zano ==> ZanoFileGuard(flat, TargetOf(Some(v), active, now, ids)))
    case Forget(kind, active, now, ids) =>
      && AllNew(ids, v.wallets)
      && (zano ==> ZanoFileGuard(Cleared(ProjectV3ToV2(v, active), kind), TargetOf(Some(v), active, now, ids)))
    case AddWallet(spec, now, id, group) =>
      && NewId(id, v.wallets) && NewId(group, v.wallets) && id != group
      && (spec.groupId.Some? ==> spec.groupId == PrimaryGroupSlotFor(v, spec.kind))
    case AddXelis(seed, active, now, id, group) =>
      NewId(id, v.wallets) && NewId(group, v.wallets) && id != group
    case _ => true
  }

  ghost predicate AllAllowed(v: VaultV3, steps: seq<Step>, zano: bool)
    decreases |steps|
  {
    steps == [] || (Allowed(v, steps[0], zano) && AllAllowed(After(v, steps[0]), steps[1..], zano))
  }

  // What every step keeps.

  /** The stored file of an entry is its canonical name, or the legacy name of its kind, or for
      Zano the name made from its group. */
  predicate ProperlyNamed(w: Entry) {
    w.kind.HasFile() ==>
      && w.sidecarFile.Some?
      && var f := w.sidecarFile.value;
         || f == NewSidecarFile(w.kind, w.id)
         || (!w.kind.Xelis? && f == LegacyFile(w.kind))
         || (w.kind.Zano? && f == NewSidecarFile(Zano, w.GroupKey()))
  }

  predicate SoundEntry(w: Entry) {
    w.groupId.Some? && w.id != "active" && ProperlyNamed(w)
  }

  /** Two wallets of one vault: group keys are no wallet ids, and no file is shared (with `zano`, for
      all kinds). */
  predicate SoundPair(a: Entry, b: Entry, zano: bool) {
    && a.GroupKey() != b.id
    && (a.kind == b.kind && a.kind.HasFile() && (a.kind.Zano? ==> zano) && a.sidecarFile == b.sidecarFile ==> a == b)
  }

  ghost predicate Sound(ws: seq<Entry>, zano: bool) {
    && UniqueIds(ws)
    && (forall w :: w in ws ==> SoundEntry(w))
    && (forall a, b :: a in ws && b in ws ==> SoundPair(a, b, zano))
  }

  lemma MigratedEntry(v2: Payload, now: int, ids: FreshIds, w: Entry)
    requires w in MigrateV2ToV3(v2, now, ids).wallets
    ensures Target(None, ids.group, now, ids).Rebuilt(v2, w.kind) == Some(w)
    ensures w.groupId == Some(ids.group) && w.id == ids.For(w.kind) && w.kind.Flat()
    ensures !w.kind.Bip39? ==> w.sidecarFile == Some(LegacyFile(w.kind))
  {
    var t := Target(None, ids.group, now, ids);
    hide MigrateV2ToV3;
    LensLaws.MigratedKinds(v2, now, ids);
    InMerged(v2, t, w);
    RebuiltShape(v2, t, w.kind);
  }

  lemma MigratedPair(v2: Payload, now: int, ids: FreshIds, a: Entry, b: Entry)
    requires AllNew(ids, [])
    requires a in MigrateV2ToV3(v2, now, ids).wallets && b in MigrateV2ToV3(v2, now, ids).wallets
    ensures SoundEntry(a) && SoundPair(a, b, true)
  {
    MigratedEntry(v2, now, ids, a);
    MigratedEntry(v2, now, ids, b);
    assert a.kind == b.kind ==> a == b;
  }

  /** A freshly migrated vault is sound. */
  lemma MigratedIsSound(v2: Payload, now: int, ids: FreshIds)
    requires AllNew(ids, [])
    ensures Sound(MigrateV2ToV3(v2, now, ids).wallets, true)
  {
    var ws := MigrateV2ToV3(v2, now, ids).wallets;
    LensLaws.MigratedKinds(v2, now, ids);
    MergeKeepsIdsUnique(v2, Target(None, ids.group, now, ids));
    forall w | w in ws ensures SoundEntry(w) {
      MigratedPair(v2, now, ids, w, w);
    }
    forall a, b | a in ws && b in ws ensures SoundPair(a, b, true) {
      MigratedPair(v2, now, ids, a, b);
    }
  }

  // Flat saves.

  lemma TargetGroupIsKey(v: VaultV3, active: Option<string>, now: int, ids: FreshIds)
    requires UniqueIds(v.wallets)
    ensures var group := TargetOf(Some(v), active, now, ids).group;
            if v.wallets == [] then group == ids.group else exists w :: w in v.wallets && w.GroupKey() == group
  {
    GroupIdForWalletIsGroupOf(v, active);
    PrimaryIsAGroup(v.wallets);
    if Truthy(active) {
      var r := Find(HasId(active.value), v.wallets);
      assert r.Some? ==> r.value in v.wallets;
    }
  }

  lemma RebuiltIsNew(v: VaultV3, flat: Payload, t: Target, kind: Kind)
    requires t.existing == Some(v) && Good(t) && AllNew(t.ids, v.wallets) && t.Rebuilt(flat, kind).Some?
        && t.Prev(kind).None?
    ensures NewId(t.Rebuilt(flat, kind).value.id, v.wallets)
  {
    RebuiltShape(flat, t, kind);
  }

  lemma RebuiltIsSound(v: VaultV3, flat: Payload, t: Target, kind: Kind)
    requires t.existing == Some(v) && Sound(v.wallets, false) && AllNew(t.ids, v.wallets)
    requires t.Rebuilt(flat, kind).Some?
    ensures SoundEntry(t.Rebuilt(flat, kind).value)
  {
    RebuiltShape(flat, t, kind);
    if t.Prev(kind).Some? {
      PrevIsInTarget(t, kind);
      assert SoundEntry(t.Prev(kind).value);
    }
  }

  /** The group that is written is no wallet's id. */
  lemma GroupIsNoId(v: VaultV3, active: Option<string>, now: int, ids: FreshIds, w: Entry)
    requires Sound(v.wallets, false) && AllNew(ids, v.wallets) && w in v.wallets
    ensures TargetOf(Some(v), active, now, ids).group != w.id
  {
    TargetGroupIsKey(v, active, now, ids);
    var x :| x in v.wallets && x.GroupKey() == TargetOf(Some(v), active, now, ids).group;
    assert SoundPair(x, w, false);
  }

  lemma RebuiltIdIsNoGroup(v: VaultV3, flat: Payload, active: Option<string>, now: int, ids: FreshIds, kind: Kind)
    requires Sound(v.wallets, false) && AllNew(ids, v.wallets)
    requires TargetOf(Some(v), active, now, ids).Rebuilt(flat, kind).Some?
    ensures var t := TargetOf(Some(v), active, now, ids);
            var id := t.Rebuilt(flat, kind).value.id;
            t.group != id && forall a :: a in v.wallets ==> a.GroupKey() != id
  {
    var t := TargetOf(Some(v), active, now, ids);
    var e := t.Rebuilt(flat, kind).value;
    RebuiltShape(flat, t, kind);
    TargetGroupIsKey(v, active, now, ids);
    if t.Prev(kind).Some? {
      PrevIsInTarget(t, kind);
      var p := t.Prev(kind).value;
      GroupIsNoId(v, active, now, ids, p);
      forall a | a in v.wallets ensures a.GroupKey() != e.id {
        assert SoundPair(a, p, false);
      }
    } else {
      RebuiltIsNew(v, flat, t, kind);
    }
  }

  /** A rebuilt entry that was there before keeps the file it had. */
  lemma RebuiltKeepsFile(flat: Payload, t: Target, kind: Kind)
    requires kind.HasFile() && t.Rebuilt(flat, kind).Some? && t.Prev(kind).Some? && SoundEntry(t.Prev(kind).value)
    ensures t.Rebuilt(flat, kind).value.sidecarFile == t.Prev(kind).value.sidecarFile
  {
    PrevIsInTarget(t, kind);
  }

  /** The name a new entry gets: the legacy one while nobody holds it, else a new one. */
  lemma NewEntryFile(flat: Payload, t: Target, kind: Kind)
    requires kind.HasFile() && t.Rebuilt(flat, kind).Some? && t.Prev(kind).None?
    ensures var f := t.Rebuilt(flat, kind).value.sidecarFile;
            if kind.Zano? then f == Some(LEGACY_ZANO_FILE) || f == Some(NewSidecarFile(Zano, t.group))
            else if LegacyFileHeld(kind, t.Wallets()) then f == Some(NewSidecarFile(kind, t.ids.For(kind)))
            else f == Some(LegacyFile(kind))
    ensures kind.Zano? ==> t.Rebuilt(flat, kind).value.sidecarFile == Some(t.ZanoFile())
  {
  }

  /** The file of a rebuilt entry is held by no other wallet, Zano's legacy name aside. */
  lemma RebuiltFileIsFree(v: VaultV3, flat: Payload, active: Option<string>, now: int, ids: FreshIds, kind: Kind,
                          a: Entry, zano: bool)
    requires Sound(v.wallets, zano) && AllNew(ids, v.wallets) && kind.HasFile() && (kind.Zano? ==> zano)
    requires var t := TargetOf(Some(v), active, now, ids);
             && t.Rebuilt(flat, kind).Some? && (kind.Zano? ==> ZanoFileGuard(flat, t))
             && a in v.wallets && a.kind == kind && a.GroupKey() != t.group
    ensures a.sidecarFile != TargetOf(Some(v), active, now, ids).Rebuilt(flat, kind).value.sidecarFile
  {
    var t := TargetOf(Some(v), active, now, ids);
    assert SoundEntry(a);
    if t.Prev(kind).Some? {
      PrevIsInTarget(t, kind);
      assert SoundEntry(t.Prev(kind).value);
      RebuiltKeepsFile(flat, t, kind);
      assert SoundPair(a, t.Prev(kind).value, zano);
    } else {
      NewEntryFile(flat, t, kind);
      assert a.File() == a.sidecarFile;
      if kind.Zano? {
        WeakenPairs(v.wallets, zano);
        GroupIsNoId(v, active, now, ids, a);
        GroupNameIsFree(t.group, a);
      } else {
        NewNameIsFree(v, ids.For(kind), a);
      }
    }
  }

  lemma NewNameIsFree(v: VaultV3, id: string, a: Entry)
    requires NewId(id, v.wallets) && a in v.wallets && SoundEntry(a) && a.kind.HasFile()
    ensures a.sidecarFile != Some(NewSidecarFile(a.kind, id))
  {
    LegacyIsNotCanonical(id);
    if NewSidecarFile(a.kind, a.id) == NewSidecarFile(a.kind, id) {
      CanonicalNamesInjective(a.kind, a.id, id);
    }
    if a.kind.Zano? && NewSidecarFile(Zano, a.GroupKey()) == NewSidecarFile(Zano, id) {
      CanonicalNamesInjective(Zano, a.GroupKey(), id);
    }
  }

  lemma GroupNameIsFree(group: string, a: Entry)
    requires a.kind.Zano? && SoundEntry(a) && a.GroupKey() != group && a.id != group
    ensures a.sidecarFile != Some(NewSidecarFile(Zano, group))
  {
    LegacyIsNotCanonical(group);
    if NewSidecarFile(Zano, a.id) == NewSidecarFile(Zano, group) {
      CanonicalNamesInjective(Zano, a.id, group);
    }
    if NewSidecarFile(Zano, a.GroupKey()) == NewSidecarFile(Zano, group) {
      CanonicalNamesInjective(Zano, a.GroupKey(), group);
    }
  }

  /** A carried wallet beside a rebuilt one. */
  lemma OldNewPair(v: VaultV3, flat: Payload, active: Option<string>, now: int, ids: FreshIds, zano: bool, a: Entry,
                   kind: Kind)
    requires Sound(v.wallets, zano) && AllNew(ids, v.wallets)
    requires var t := TargetOf(Some(v), active, now, ids);
             && (zano ==> ZanoFileGuard(flat, t)) && t.Rebuilt(flat, kind).Some?
             && a in v.wallets && (a.GroupKey() != t.group || a.kind.Xelis?)
    ensures var e := TargetOf(Some(v), active, now, ids).Rebuilt(flat, kind).value;
            SoundPair(a, e, zano) && SoundPair(e, a, zano)
  {
    var t := TargetOf(Some(v), active, now, ids);
    WeakenPairs(v.wallets, zano);
    RebuiltShape(flat, t, kind);
    RebuiltIdIsNoGroup(v, flat, active, now, ids, kind);
    GroupIsNoId(v, active, now, ids, a);
    if a.kind == kind && kind.HasFile() && (kind.Zano? ==> zano) {
      RebuiltFileIsFree(v, flat, active, now, ids, kind, a, zano);
    }
  }

  /** Two rebuilt wallets. */
  lemma NewNewPair(v: VaultV3, flat: Payload, active: Option<string>, now: int, ids: FreshIds, zano: bool, j: Kind,
                   k: Kind)
    requires Sound(v.wallets, false) && AllNew(ids, v.wallets)
    requires var t := TargetOf(Some(v), active, now, ids); t.Rebuilt(flat, j).Some? && t.Rebuilt(flat, k).Some?
    ensures var t := TargetOf(Some(v), active, now, ids);
            SoundPair(t.Rebuilt(flat, j).value, t.Rebuilt(flat, k).value, zano)
  {
    var t := TargetOf(Some(v), active, now, ids);
    RebuiltShape(flat, t, j);
    RebuiltShape(flat, t, k);
    RebuiltIdIsNoGroup(v, flat, active, now, ids, k);
  }

  lemma MergedPair(v: VaultV3, flat: Payload, active: Option<string>, now: int, ids: FreshIds, zano: bool, a: Entry,
                   b: Entry)
    requires Sound(v.wallets, zano) && AllNew(ids, v.wallets)
    requires var t := TargetOf(Some(v), active, now, ids);
             && (zano ==> ZanoFileGuard(flat, t))
             && a in t.Merged(flat) && b in t.Merged(flat)
    ensures SoundPair(a, b, zano)
  {
    var t := TargetOf(Some(v), active, now, ids);
    InMerged(flat, t, a);
    InMerged(flat, t, b);
    if t.Rebuilt(flat, a.kind) == Some(a) {
      if t.Rebuilt(flat, b.kind) == Some(b) {
        WeakenPairs(v.wallets, zano);
        NewNewPair(v, flat, active, now, ids, zano, a.kind, b.kind);
      } else {
        OldNewPair(v, flat, active, now, ids, zano, b, a.kind);
      }
    } else if t.Rebuilt(flat, b.kind) == Some(b) {
      OldNewPair(v, flat, active, now, ids, zano, a, b.kind);
    }
  }

  lemma MergeKeepsSound(v: VaultV3, flat: Payload, active: Option<string>, now: int, ids: FreshIds, zano: bool)
    requires Sound(v.wallets, zano) && AllNew(ids, v.wallets)
    requires zano ==> ZanoFileGuard(flat, TargetOf(Some(v), active, now, ids))
    ensures Sound(MergeFlatIntoV3(flat, Some(v), active, now, ids).wallets, zano)
  {
    var t := TargetOf(Some(v), active, now, ids);
    var merged := t.Merged(flat);
    MergeKeepsIdsUnique(flat, t);
    forall w | w in merged ensures SoundEntry(w) {
      InMerged(flat, t, w);
      if t.Rebuilt(flat, w.kind) == Some(w) {
        WeakenPairs(v.wallets, zano);
        RebuiltIsSound(v, flat, t, w.kind);
      }
    }
    forall a, b | a in merged && b in merged ensures SoundPair(a, b, zano) {
      MergedPair(v, flat, active, now, ids, zano, a, b);
    }
  }

  lemma WeakenPairs(ws: seq<Entry>, zano: bool)
    requires Sound(ws, zano)
    ensures Sound(ws, false)
  {
    forall a, b | a in ws && b in ws ensures SoundPair(a, b, false) {
      assert SoundPair(a, b, zano);
    }
  }

  /** The Zano guard is exact: with sound files before, a flat save leaves two Zano wallets on one
      file exactly when it hands out the legacy name a second time. */
  lemma ZanoFilesExact(v: VaultV3, flat: Payload, active: Option<string>, now: int, ids: FreshIds)
    requires Sound(v.wallets, true) && AllNew(ids, v.wallets)
    ensures Sound(MergeFlatIntoV3(flat, Some(v), active, now, ids).wallets, true)
       <==> ZanoFileGuard(flat, TargetOf(Some(v), active, now, ids))
  {
    var t := TargetOf(Some(v), active, now, ids);
    if ZanoFileGuard(flat, t) {
      MergeKeepsSound(v, flat, active, now, ids, true);
    } else {
      var w :| w in v.wallets && w.kind == Zano && w.File() == Some(LEGACY_ZANO_FILE);
      var e := t.Rebuilt(flat, Zano).value;
      RebuiltShape(flat, t, Zano);
      assert SoundEntry(w);
      assert !OfKindIn(Zano, t.group)(w);
      InMerged(flat, t, w);
      InMerged(flat, t, e);
      assert !SoundPair(w, e, true);
    }
  }

  // The other steps.

  lemma AppendKeepsSound(ws: seq<Entry>, e: Entry, zano: bool)
    requires Sound(ws, zano) && SoundEntry(e) && NewId(e.id, ws) && e.GroupKey() != e.id
    requires e.kind.HasFile() ==> e.sidecarFile == Some(NewSidecarFile(e.kind, e.id))
    requires forall w :: w in ws ==> w.id != e.GroupKey()
    ensures Sound(ws + [e], zano)
  {
    forall w | w in ws ensures SoundPair(w, e, zano) && SoundPair(e, w, zano) {
      assert SoundEntry(w);
      if w.kind == e.kind && e.kind.HasFile() {
        NewNameIsFree(VaultV3(ws, None, None, None, None, None), e.id, w);
      }
    }
    forall a, b | a in ws + [e] && b in ws + [e] ensures SoundPair(a, b, zano) {
    }
  }

  lemma AddKeepsSound(v: VaultV3, spec: NewWalletSpec, now: int, id: string, group: string, zano: bool)
    requires Sound(v.wallets, zano) && NewId(id, v.wallets) && NewId(group, v.wallets) && id != group
    requires spec.groupId.Some? ==> spec.groupId == PrimaryGroupSlotFor(v, spec.kind)
    ensures Sound(AddWalletEntry(v, spec, now, id, group).wallets, zano)
  {
    var e := NewEntry(spec, now, id, group);
    PrimaryIsAGroup(v.wallets);
    if spec.groupId.Some? {
      var x :| x in v.wallets && x.GroupKey() == spec.groupId.value;
      forall w | w in v.wallets ensures w.id != e.GroupKey() {
        assert SoundPair(x, w, zano);
      }
    }
    AppendKeepsSound(v.wallets, e, zano);
  }

  lemma AddXelisKeepsSound(v: VaultV3, seed: string, active: Option<string>, now: int, id: string, group: string,
                           zano: bool)
    requires Sound(v.wallets, zano) && NewId(id, v.wallets) && NewId(group, v.wallets) && id != group
    ensures Sound(After(v, AddXelis(seed, active, now, id, group)).wallets, zano)
  {
    hide NormalizeSeed, XelisName, GroupIdForWallet, PrimaryGroup;
    var r := AddXelisWalletToContext(v, seed, active, now, id, group);
    if r.Ok? && r.value.created {
      var e := r.value.entry;
      GroupIdForWalletIsGroupOf(v, active);
      PrimaryIsAGroup(v.wallets);
      var g := GroupIdForWallet(v, active);
      if g.Some? {
        TargetGroupIsKey(v, active, now, FreshIds(group, id, id, id, id));
        var x :| x in v.wallets && x.GroupKey() == g.value;
        forall w | w in v.wallets ensures w.id != e.GroupKey() {
          assert SoundPair(x, w, zano);
        }
      }
      AppendKeepsSound(v.wallets, e, zano);
    }
  }

  lemma MapKeepsSound(ws: seq<Entry>, f: Entry -> Entry, zano: bool)
    requires Sound(ws, zano)
    requires forall w :: w in ws ==> f(w).id == w.id && SoundEntry(f(w))
    requires forall a, b :: a in ws && b in ws && SoundPair(a, b, zano) ==> SoundPair(f(a), f(b), zano)
    ensures Sound(Map(f, ws), zano)
  {
    var r := Map(f, ws);
    forall a, b | a in r && b in r ensures SoundPair(a, b, zano) {
      var i :| 0 <= i < |ws| && r[i] == a;
      var j :| 0 <= j < |ws| && r[j] == b;
      assert ws[i] in ws && ws[j] in ws && r[i] == f(ws[i]) && r[j] == f(ws[j]);
    }
    forall w | w in r ensures SoundEntry(w) {
      var i :| 0 <= i < |ws| && r[i] == w;
      assert ws[i] in ws;
    }
    forall i, j | 0 <= i < j < |r| ensures r[i].id != r[j].id {
      assert ws[i] in ws && ws[j] in ws;
    }
  }

  lemma RenameKeepsSound(ws: seq<Entry>, id: string, name: string, zano: bool)
    requires Sound(ws, zano)
    ensures Sound(Map(Renamed(id, name), ws), zano)
  {
    var f := Renamed(id, name);
    forall w | w in ws ensures f(w).id == w.id && SoundEntry(f(w)) {
      assert SoundEntry(w);
    }
    MapKeepsSound(ws, f, zano);
  }

  lemma RemoveKeepsSound(ws: seq<Entry>, id: string, zano: bool)
    requires Sound(ws, zano)
    ensures Sound(Filter(OtherThan(id), ws), zano)
  {
    FilterUniqueIds(ws, OtherThan(id));
  }

  /** A wallet that shares its file with no other one keeps it. */
  lemma AloneKeeps(ws: seq<Entry>, order: (Entry, Entry) -> bool, w: Entry)
    requires w in ws && SlotOf(w).Some?
    requires forall x :: x in ws && SlotOf(x) == SlotOf(w) ==> x == w
    ensures Keeps(ws, order, w)
  {
    var k := KeeperOf(ws, order, SlotOf(w).value);
  }

  lemma ProperSlot(w: Entry)
    requires SoundEntry(w) && w.kind.HasFile()
    ensures SlotOf(w) == Some(Slot(w.kind, w.sidecarFile.value))
  {
    assert |NewSidecarFile(w.kind, w.id)| > 0;
  }

  lemma RepairPair(v: VaultV3, rank: string -> real, zano: bool, a: Entry, b: Entry)
    requires Sound(v.wallets, zano) && a in v.wallets && b in v.wallets
    ensures var f := RepairLaws.After(v.wallets, Order(v, rank)); SoundPair(f(a), f(b), zano)
  {
    var ws, order := v.wallets, Order(v, rank);
    var f := RepairLaws.After(ws, order);
    assert SoundPair(a, b, zano);
    if a.kind == b.kind && a.kind.HasFile() && (a.kind.Zano? ==> zano) {
      FileKept(ws, order, zano, a);
      FileKept(ws, order, zano, b);
    }
  }

  lemma FileKept(ws: seq<Entry>, order: (Entry, Entry) -> bool, zano: bool, w: Entry)
    requires Sound(ws, zano) && w in ws && w.kind.HasFile() && (w.kind.Zano? ==> zano)
    ensures !IsMoved(ws, order, w)
  {
    assert SoundEntry(w);
    ProperSlot(w);
    forall x | x in ws && SlotOf(x) == SlotOf(w) ensures x == w {
      assert SoundEntry(x);
      ProperSlot(x);
      assert SoundPair(x, w, zano);
    }
    AloneKeeps(ws, order, w);
  }

  lemma RepairKeepsSound(v: VaultV3, rank: string -> real, zano: bool)
    requires Sound(v.wallets, zano)
    ensures Sound(Repaired(v, rank).wallets, zano)
  {
    RepairIsAfter(v, rank);
    var f := RepairLaws.After(v.wallets, Order(v, rank));
    forall w | w in v.wallets ensures f(w).id == w.id && SoundEntry(f(w)) {
      assert SoundEntry(w);
    }
    forall a, b | a in v.wallets && b in v.wallets ensures SoundPair(f(a), f(b), zano) {
      RepairPair(v, rank, zano, a, b);
    }
    MapKeepsSound(v.wallets, f, zano);
  }

  lemma StepKeepsSound(v: VaultV3, step: Step, zano: bool)
    requires Sound(v.wallets, zano) && Allowed(v, step, zano)
    ensures Sound(After(v, step).wallets, zano)
  {
    match step
    case FlatSave(flat, _, active, now, ids) => MergeKeepsSound(v, flat, active, now, ids, zano);
    case Forget(kind, active, now, ids) => MergeKeepsSound(v, Cleared(ProjectV3ToV2(v, active), kind), active, now,
        ids, zano);
    case AddWallet(spec, now, id, group) => AddKeepsSound(v, spec, now, id, group, zano);
    case AddXelis(seed, active, now, id, group) => AddXelisKeepsSound(v, seed, active, now, id, group, zano);
    case Rename(id, name) => RenameKeepsSound(v.wallets, id, name, zano);
    case RepairFiles(rank) => RepairKeepsSound(v, rank, zano);
    case SwitchTo(active) =>
    case Remove(id) => RemoveKeepsSound(v.wallets, id, zano);
  }

  lemma {:induction false} RunKeepsSound(v: VaultV3, steps: seq<Step>, zano: bool)
    requires Sound(v.wallets, zano) && AllAllowed(v, steps, zano)
    ensures Sound(RunAll(v, steps).wallets, zano)
    decreases |steps|
  {
    if steps != [] {
      StepKeepsSound(v, steps[0], zano);
      RunKeepsSound(After(v, steps[0]), steps[1..], zano);
    }
  }

  /** No two wallets of a kind open one file. */
  ghost predicate KindInjective(ws: seq<Entry>, kind: Kind) {
    forall a, b :: a in ws && b in ws && a.kind == b.kind == kind && SlotOf(a).Some? && SlotOf(a) == SlotOf(b) ==>
        a == b
  }

  lemma SoundIsInjective(ws: seq<Entry>, zano: bool, kind: Kind)
    requires Sound(ws, zano) && (kind.Zano? ==> zano)
    ensures KindInjective(ws, kind)
  {
    forall a, b | a in ws && b in ws && a.kind == b.kind == kind && SlotOf(a).Some? && SlotOf(a) == SlotOf(b)
      ensures a == b {
      assert SoundEntry(a) && SoundEntry(b) && SoundPair(a, b, zano);
    }
  }

  /** From a migrated vault, no run ever puts two Monero, Zephyr or Xelis wallets on one file; nor
      two Zano wallets, when no save hands out Zano's legacy name while it is held. */
  lemma FilesNeverShared(v2: Payload, now: int, ids: FreshIds, steps: seq<Step>, zano: bool, kind: Kind)
    requires AllNew(ids, []) && AllAllowed(MigrateV2ToV3(v2, now, ids), steps, zano)
    requires kind.Zano? ==> zano
    ensures KindInjective(RunAll(MigrateV2ToV3(v2, now, ids), steps).wallets, kind)
  {
    MigratedIsSound(v2, now, ids);
    var v := MigrateV2ToV3(v2, now, ids);
    if !zano {
      WeakenPairs(v.wallets, true);
    }
    RunKeepsSound(v, steps, zano);
    SoundIsInjective(RunAll(v, steps).wallets, zano, kind);
  }

  /** Every wallet with a file stores its name, from the migration on. */
  lemma RunsStoreFileNames(v2: Payload, now: int, ids: FreshIds, steps: seq<Step>, w: Entry)
    requires AllNew(ids, []) && AllAllowed(MigrateV2ToV3(v2, now, ids), steps, false)
    requires w in RunAll(MigrateV2ToV3(v2, now, ids), steps).wallets && w.kind.HasFile()
    ensures w.sidecarFile.Some? && w.groupId.Some?
  {
    var v := MigrateV2ToV3(v2, now, ids);
    hide MigrateV2ToV3, RunAll, AllAllowed;
    MigratedIsSound(v2, now, ids);
    WeakenPairs(v.wallets, true);
    RunKeepsSound(v, steps, false);
    assert SoundEntry(w);
  }

  /** Whatever happened to Zano's legacy name in a run, one repair separates all files. */
  lemma RepairSeparatesSound(v: VaultV3, rank: string -> real)
    requires Sound(v.wallets, false)
    ensures FilesInjective(Repaired(v, rank).wallets)
  {
    forall a, b | a in v.wallets && b in v.wallets && a != b && b.kind.HasFile() ensures SlotOf(a) != Some(OwnSlot(b)) {
      assert SoundEntry(a) && SoundEntry(b) && SoundPair(a, b, false);
      NotBorrowed(v.wallets, a, b);
    }
    RepairSeparates(v, rank);
  }

  lemma NotBorrowed(ws: seq<Entry>, a: Entry, b: Entry)
    requires Sound(ws, false) && a in ws && b in ws && a != b && b.kind.HasFile()
    ensures SlotOf(a) != Some(OwnSlot(b))
  {
    assert SoundEntry(a) && SoundEntry(b) && SoundPair(a, b, false);
    if SlotOf(a) == Some(OwnSlot(b)) {
      LegacyIsNotCanonical(b.id);
      if NewSidecarFile(a.kind, a.id) == NewSidecarFile(a.kind, b.id) {
        CanonicalNamesInjective(a.kind, a.id, b.id);
        SameIdSameEntry(ws, a, b);
      }
      if a.kind.Zano? && NewSidecarFile(Zano, a.GroupKey()) == NewSidecarFile(Zano, b.id) {
        CanonicalNamesInjective(Zano, a.GroupKey(), b.id);
      }
      assert false;
    }
  }
}
