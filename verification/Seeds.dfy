/** No seed is lost: exactly which seeds a flat save keeps, and whole runs that keep all of them. */
module Seeds {
  import opened Wrappers
  import opened Seqs
  import opened Vault
  import opened Contexts
  import opened FlatShape
  import opened MergeOrder
  import opened MergeLaws
  import opened Repair
  import opened RepairLaws
  import opened Crud
  import opened Runs
  import LensLaws

  /** What a stored seed is told apart by: its words as they are compared and, for Zano, the
      passphrase, which makes the same words another wallet. */
  datatype SeedKey = SeedKey(words: string, passphrase: string)

  function KeyFor(kind: Kind, seed: string, passphrase: Option<string>): SeedKey {
    SeedKey(NormalizeSeed(seed), if kind.Zano? then passphrase.GetOr("") else "")
  }

  function SeedOf(w: Entry): SeedKey {
    KeyFor(w.kind, w.seed, w.zanoPassphrase)
  }

  /** The seeds of the stored wallets; blank ones are none. */
  function Held(ws: seq<Entry>): set<SeedKey> {
    set w | w in ws && SeedOf(w).words != "" :: SeedOf(w)
  }

  /** The seed that a payload names for a kind. */
  function FlatKey(flat: Payload, kind: Kind): SeedKey {
    KeyFor(kind, FlatSeed(flat, kind).GetOr(""), flat.zanoPassphrase)
  }

  ghost predicate InPayload(flat: Payload, s: SeedKey) {
    exists k: Kind :: k.Flat() && FlatKey(flat, k) == s
  }

  lemma InHeld(ws: seq<Entry>, w: Entry)
    requires w in ws && SeedOf(w).words != ""
    ensures SeedOf(w) in Held(ws)
  {
  }

  lemma BlankSeed()
    ensures NormalizeSeed("") == ""
  {
  }

  /** An entry stands in the merged list for exactly the seed the payload names. */
  lemma RebuiltSeed(flat: Payload, t: Target, kind: Kind)
    ensures t.Rebuilt(flat, kind).Some? ==> SeedOf(t.Rebuilt(flat, kind).value) == FlatKey(flat, kind)
    ensures kind.Flat() && FlatKey(flat, kind).words != "" ==> t.Rebuilt(flat, kind).Some?
  {
    BlankSeed();
    if t.Rebuilt(flat, kind).Some? {
      RebuiltShape(flat, t, kind);
      LensLaws.RebuiltReads(flat, t);
    }
  }

  /** A flat save as `useVault` makes it: the payload just read, with the seed of at most one kind
      replaced, and that only when `flatSeedRefusal` lets it through. A Zano passphrase is part of
      the seed; anything else may differ. */
  predicate GuardedSave(current: Payload, flat: Payload, kind: Option<Kind>) {
    && (kind.Some? ==> kind.value.Xmr? || kind.value.Zph? || kind.value.Zano?)
    && flat.bip39 == current.bip39
    && (kind != Some(Xmr) ==> flat.xmrSeed == current.xmrSeed)
    && (kind != Some(Zph) ==> flat.zphSeed == current.zphSeed)
    && (kind != Some(Zano) ==> flat.zanoSeed == current.zanoSeed && flat.zanoPassphrase == current.zanoPassphrase)
    && (kind.Some? ==>
          && FlatSeed(flat, kind.value).Some?
          && FlatSeedRefusal(current, kind.value, FlatSeed(flat, kind.value).value,
                             flat.zanoPassphrase.GetOr("")).None?)
  }

  /** A guarded save names every seed that was read. */
  lemma GuardKeepsKeys(current: Payload, flat: Payload, replaced: Option<Kind>, kind: Kind)
    requires GuardedSave(current, flat, replaced) && kind.Flat() && FlatKey(current, kind).words != ""
    ensures FlatKey(flat, kind) == FlatKey(current, kind)
  {
    hide NormalizeSeed;
  }

  // What a save keeps.

  /** The wallets that a save into `group` carries through. */
  function Carried(group: string): Entry -> bool {
    (w: Entry) => w.GroupKey() != group || w.kind.Xelis?
  }

  /** The wallet is the one its kind is read from and written to. */
  predicate Described(ws: seq<Entry>, group: string, w: Entry) {
    w.kind.Flat() && FirstIn(ws, w.kind, group) == Some(w)
  }

  /** The wallets that a save into `group` has no place for: single-chain accounts, and a second
      wallet of a flat kind. */
  predicate Stranded(ws: seq<Entry>, group: string, w: Entry) {
    !Carried(group)(w) && !Described(ws, group, w)
  }

  /** Each of those has its seed among the carried wallets or in the payload too, unless the save is
      asked to drop it. */
  ghost predicate NothingStranded(v: VaultV3, group: string, flat: Payload, asked: set<SeedKey>) {
    forall w :: w in v.wallets && Stranded(v.wallets, group, w) && SeedOf(w).words != "" && SeedOf(w) !in asked
      ==> SeedOf(w) in Held(Filter(Carried(group), v.wallets)) || InPayload(flat, SeedOf(w))
  }

  /** Where a seed of the merged list comes from. */
  lemma MergedSeeds(v: VaultV3, flat: Payload, t: Target, s: SeedKey)
    requires t.existing == Some(v)
    ensures s in Held(t.Merged(flat))
       <==> s in Held(Filter(Carried(t.group), v.wallets)) || (s.words != "" && InPayload(flat, s))
  {
    if s in Held(t.Merged(flat)) {
      var e :| e in t.Merged(flat) && SeedOf(e) == s;
      MergedSeedFrom(v, flat, t, e);
    }
    if s in Held(Filter(Carried(t.group), v.wallets)) {
      var w :| w in Filter(Carried(t.group), v.wallets) && SeedOf(w) == s;
      assert Carried(t.group)(w);
      InMerged(flat, t, w);
      InHeld(t.Merged(flat), w);
    } else if s.words != "" && InPayload(flat, s) {
      var k: Kind :| k.Flat() && FlatKey(flat, k) == s;
      RebuiltSeed(flat, t, k);
      RebuiltShape(flat, t, k);
      InMerged(flat, t, t.Rebuilt(flat, k).value);
      InHeld(t.Merged(flat), t.Rebuilt(flat, k).value);
    }
  }

  lemma MergedSeedFrom(v: VaultV3, flat: Payload, t: Target, e: Entry)
    requires t.existing == Some(v) && e in t.Merged(flat) && SeedOf(e).words != ""
    ensures SeedOf(e) in Held(Filter(Carried(t.group), v.wallets)) || InPayload(flat, SeedOf(e))
  {
    InMerged(flat, t, e);
    if t.Rebuilt(flat, e.kind) == Some(e) {
      RebuiltSeed(flat, t, e.kind);
      RebuiltShape(flat, t, e.kind);
    } else {
      assert Carried(t.group)(e);
      InHeld(Filter(Carried(t.group), v.wallets), e);
    }
  }

  /** The payload names the seeds of the wallets it is written to, but for those asked to be
      dropped. */
  ghost predicate Names(v: VaultV3, group: string, flat: Payload, asked: set<SeedKey>) {
    forall w :: w in v.wallets && Described(v.wallets, group, w) && SeedOf(w).words != "" && SeedOf(w) !in asked
      ==> InPayload(flat, SeedOf(w))
  }

  lemma MergeKeepsExactly(v: VaultV3, flat: Payload, t: Target, asked: set<SeedKey>)
    requires t.existing == Some(v) && Names(v, t.group, flat, asked)
    ensures Held(v.wallets) - asked <= Held(t.Merged(flat)) <==> NothingStranded(v, t.group, flat, asked)
  {
    var kept := Filter(Carried(t.group), v.wallets);
    forall w | w in v.wallets && SeedOf(w).words != "" && SeedOf(w) !in asked
      ensures SeedOf(w) in Held(v.wallets) - asked
      ensures SeedOf(w) in Held(t.Merged(flat)) <==> SeedOf(w) in Held(kept) || InPayload(flat, SeedOf(w))
      ensures Carried(t.group)(w) ==> SeedOf(w) in Held(kept)
    {
      InHeld(v.wallets, w);
      MergedSeeds(v, flat, t, SeedOf(w));
      if Carried(t.group)(w) {
        InHeld(kept, w);
      }
    }
    hide SeedOf, Described, InPayload, Carried;
    if NothingStranded(v, t.group, flat, asked) {
      forall s | s in Held(v.wallets) - asked ensures s in Held(t.Merged(flat)) {
        var w :| w in v.wallets && SeedOf(w) == s;
        assert Stranded(v.wallets, t.group, w) || Carried(t.group)(w) || Described(v.wallets, t.group, w);
      }
    }
  }

  /** What the first wallet of a flat kind projects to. */
  lemma ProjectedKey(v: VaultV3, active: Option<string>, now: int, ids: FreshIds, w: Entry)
    requires UniqueIds(v.wallets) && w in v.wallets
    requires Described(v.wallets, TargetOf(Some(v), active, now, ids).group, w)
    ensures FlatKey(ProjectV3ToV2(v, active), w.kind) == SeedOf(w)
  {
    hide NormalizeSeed, GroupIdForWallet;
    SomeGroup(v, active);
  }

  lemma SomeGroup(v: VaultV3, active: Option<string>)
    requires UniqueIds(v.wallets)
    ensures GroupIdForWallet(v, active).Some? <==> v.wallets != []
  {
    hide GroupIdForWallet;
    GroupIdForWalletIsGroupOf(v, active);
    PrimaryIsAGroup(v.wallets);
  }

  lemma MergedIntoTarget(flat: Payload, v: VaultV3, active: Option<string>, now: int, ids: FreshIds)
    ensures MergeFlatIntoV3(flat, Some(v), active, now, ids).wallets == TargetOf(Some(v), active, now, ids).Merged(flat)
  {
  }

  /** A guarded flat save keeps every stored seed exactly when each wallet it has no place for has
      its seed stored elsewhere or in the payload. Groups may hold anything. */
  lemma SeedsKeptExactly(v: VaultV3, flat: Payload, replaced: Option<Kind>, active: Option<string>, now: int,
                         ids: FreshIds)
    requires UniqueIds(v.wallets) && GuardedSave(ProjectV3ToV2(v, active), flat, replaced)
    ensures Held(v.wallets) <= Held(MergeFlatIntoV3(flat, Some(v), active, now, ids).wallets)
       <==> NothingStranded(v, TargetOf(Some(v), active, now, ids).group, flat, {})
  {
    var t := TargetOf(Some(v), active, now, ids);
    hide Held, SeedOf, FlatKey, GuardedSave, Described, NothingStranded, ProjectV3ToV2, MergeFlatIntoV3, UniqueIds;
    forall w | w in v.wallets && Described(v.wallets, t.group, w) && SeedOf(w).words != ""
      ensures InPayload(flat, SeedOf(w)) {
      DescribedIsFlat(v.wallets, t.group, w);
      ProjectedKey(v, active, now, ids, w);
      GuardKeepsKeys(ProjectV3ToV2(v, active), flat, replaced, w.kind);
    }
    MergeKeepsExactly(v, flat, t, {});
    MergedIntoTarget(flat, v, active, now, ids);
    assert Held(v.wallets) - {} == Held(v.wallets);
  }

  lemma DescribedIsFlat(ws: seq<Entry>, group: string, w: Entry)
    requires Described(ws, group, w)
    ensures w.kind.Flat()
  {
  }

  lemma ClearedKey(current: Payload, cleared: Kind, kind: Kind)
    requires kind.Flat() && kind != cleared
    ensures FlatKey(Cleared(current, cleared), kind) == FlatKey(current, kind)
  {
  }

  /** A forget keeps every seed but the one it names, under the same condition. */
  lemma ForgetKeepsExactly(v: VaultV3, kind: Kind, active: Option<string>, now: int, ids: FreshIds)
    requires UniqueIds(v.wallets)
    ensures var step := Forget(kind, active, now, ids);
            var flat := Cleared(ProjectV3ToV2(v, active), kind);
            (Held(v.wallets) - Dropped(v, step) <= Held(Runs.After(v, step).wallets)
             <==> NothingStranded(v, TargetOf(Some(v), active, now, ids).group, flat, Dropped(v, step)))
  {
    var t, current := TargetOf(Some(v), active, now, ids), ProjectV3ToV2(v, active);
    var flat, asked := Cleared(current, kind), {FlatKey(current, kind)};
    hide Held, SeedOf, FlatKey, Described, NothingStranded, ProjectV3ToV2, MergeFlatIntoV3, UniqueIds, Cleared;
    forall w | w in v.wallets && Described(v.wallets, t.group, w) && SeedOf(w) !in asked
      ensures InPayload(flat, SeedOf(w)) {
      DescribedIsFlat(v.wallets, t.group, w);
      ProjectedKey(v, active, now, ids, w);
      ClearedKey(current, kind, w.kind);
    }
    MergeKeepsExactly(v, flat, t, asked);
    MergedIntoTarget(flat, v, active, now, ids);
  }

  // Runs.

  /** The seeds that a step is asked to drop. */
  function Dropped(v: VaultV3, step: Step): set<SeedKey> {
    match step
    case Remove(id) => set w | w in v.wallets && w.id == id :: SeedOf(w)
    case Forget(kind, active, _, _) => {FlatKey(ProjectV3ToV2(v, active), kind)}
    case _ => {}
  }

  function DroppedInRun(v: VaultV3, steps: seq<Step>): set<SeedKey>
    decreases |steps|
  {
    if steps == [] then {} else Dropped(v, steps[0]) + DroppedInRun(Runs.After(v, steps[0]), steps[1..])
  }

  /** What a step must meet for the seeds to stay: a flat save is guarded and strands no seed, and
      new ids are not in use. */
  ghost predicate StrandsNone(v: VaultV3, step: Step) {
    match step
    case FlatSave(flat, replaced, active, now, ids) =>
      && Fresh(ids, v.wallets) && GuardedSave(ProjectV3ToV2(v, active), flat, replaced)
      && NothingStranded(v, TargetOf(Some(v), active, now, ids).group, flat, {})
    case Forget(kind, active, now, ids) =>
      && Fresh(ids, v.wallets)
      && NothingStranded(v, TargetOf(Some(v), active, now, ids).group, Cleared(ProjectV3ToV2(v, active), kind),
         Dropped(v, step))
    case AddWallet(_, _, id, _) => forall w :: w in v.wallets ==> w.id != id
    case AddXelis(_, _, _, id, _) => forall w :: w in v.wallets ==> w.id != id
    case _ => true
  }

  ghost predicate AllStrandNone(v: VaultV3, steps: seq<Step>)
    decreases |steps|
  {
    steps == [] || (StrandsNone(v, steps[0]) && AllStrandNone(Runs.After(v, steps[0]), steps[1..]))
  }

  lemma AppendKeepsSeeds(ws: seq<Entry>, e: Entry)
    ensures Held(ws) <= Held(ws + [e])
  {
    hide SeedOf;
  }

  lemma SameSeedsHeld(ws: seq<Entry>, f: Entry -> Entry)
    requires forall w :: w in ws ==> SeedOf(f(w)) == SeedOf(w)
    ensures Held(ws) <= Held(Map(f, ws))
  {
    hide SeedOf;
    forall s | s in Held(ws) ensures s in Held(Map(f, ws)) {
      var w :| w in ws && SeedOf(w) == s;
      var i :| 0 <= i < |ws| && ws[i] == w;
      assert Map(f, ws)[i] == f(w);
      InHeld(Map(f, ws), f(w));
    }
  }

  lemma RemovalKeepsSeeds(v: VaultV3, id: string)
    ensures Held(v.wallets) - Dropped(v, Remove(id)) <= Held(Filter(OtherThan(id), v.wallets))
  {
    hide SeedOf;
    forall s | s in Held(v.wallets) && s !in Dropped(v, Remove(id))
      ensures s in Held(Filter(OtherThan(id), v.wallets)) {
      var w :| w in v.wallets && SeedOf(w) == s;
      assert OtherThan(id)(w);
      InHeld(Filter(OtherThan(id), v.wallets), w);
    }
  }

  /** One step keeps every stored seed but those it is asked to drop. */
  lemma StepKeepsSeeds(v: VaultV3, step: Step)
    requires UniqueIds(v.wallets) && StrandsNone(v, step)
    ensures Held(v.wallets) - Dropped(v, step) <= Held(Runs.After(v, step).wallets)
  {
    hide Held, SeedOf, NothingStranded, MergeFlatIntoV3, GuardedSave, UniqueIds, Repaired;
    match step
    case FlatSave(flat, replaced, active, now, ids) => SeedsKeptExactly(v, flat, replaced, active, now, ids);
    case Forget(kind, active, now, ids) => ForgetKeepsExactly(v, kind, active, now, ids);
    case AddWallet(spec, now, id, group) => AppendKeepsSeeds(v.wallets, NewEntry(spec, now, id, group));
    case AddXelis(seed, active, now, id, group) => XelisKeepsSeeds(v, seed, active, now, id, group);
    case Rename(id, name) => RenameKeepsSeeds(v.wallets, id, name);
    case RepairFiles(rank) => RepairKeepsSeeds(v, rank);
    case SwitchTo(active) =>
    case Remove(id) => RemovalKeepsSeeds(v, id);
  }

  lemma XelisKeepsSeeds(v: VaultV3, seed: string, active: Option<string>, now: int, id: string, group: string)
    ensures Held(v.wallets) <= Held(Runs.After(v, AddXelis(seed, active, now, id, group)).wallets)
  {
    hide Held, NormalizeSeed, GroupIdForWallet, XelisName;
    var r := AddXelisWalletToContext(v, seed, active, now, id, group);
    if r.Ok? && r.value.created {
      AppendKeepsSeeds(v.wallets, r.value.entry);
    }
  }

  lemma RenameKeepsSeeds(ws: seq<Entry>, id: string, name: string)
    ensures Held(ws) <= Held(Map(Renamed(id, name), ws))
  {
    hide Held, NormalizeSeed;
    SameSeedsHeld(ws, Renamed(id, name));
  }

  lemma RepairKeepsSeeds(v: VaultV3, rank: string -> real)
    requires UniqueIds(v.wallets)
    ensures Held(v.wallets) <= Held(Repaired(v, rank).wallets)
  {
    hide Held, NormalizeSeed, IsMoved, UniqueIds, Repaired;
    RepairIsAfter(v, rank);
    SameSeedsHeld(v.wallets, RepairLaws.After(v.wallets, Order(v, rank)));
  }

  lemma AppendKeepsIds(ws: seq<Entry>, e: Entry)
    requires UniqueIds(ws) && forall w :: w in ws ==> w.id != e.id
    ensures UniqueIds(ws + [e])
  {
  }

  lemma StepKeepsIds(v: VaultV3, step: Step)
    requires UniqueIds(v.wallets) && StrandsNone(v, step)
    ensures UniqueIds(Runs.After(v, step).wallets)
  {
    hide NothingStranded, GuardedSave, NormalizeSeed, GroupIdForWallet, XelisName, Repaired;
    match step
    case FlatSave(flat, _, active, now, ids) => MergeKeepsIdsUnique(flat, TargetOf(Some(v), active, now, ids));
    case Forget(kind, active, now, ids) =>
      MergeKeepsIdsUnique(Cleared(ProjectV3ToV2(v, active), kind), TargetOf(Some(v), active, now, ids));
    case AddWallet(spec, now, id, group) => AppendKeepsIds(v.wallets, NewEntry(spec, now, id, group));
    case AddXelis(seed, active, now, id, group) =>
      var r := AddXelisWalletToContext(v, seed, active, now, id, group);
      if r.Ok? && r.value.created {
        AppendKeepsIds(v.wallets, r.value.entry);
      }
    case Rename(id, name) =>
    case RepairFiles(rank) => RepairKeepsOrder(v, rank);
    case SwitchTo(active) =>
    case Remove(id) => FilterUniqueIds(v.wallets, OtherThan(id));
  }

  /** No seed is ever lost: over any run of steps that strand none, from any vault with unique ids,
      a stored seed stays stored unless a removal or an explicit forget named it. */
  lemma {:induction false} NoSeedLost(v: VaultV3, steps: seq<Step>)
    requires UniqueIds(v.wallets) && AllStrandNone(v, steps)
    ensures Held(v.wallets) - DroppedInRun(v, steps) <= Held(RunAll(v, steps).wallets)
    decreases |steps|
  {
    if steps != [] {
      StepKeepsSeeds(v, steps[0]);
      StepKeepsIds(v, steps[0]);
      hide Held, StrandsNone, Dropped, UniqueIds, Runs.After;
      NoSeedLost(Runs.After(v, steps[0]), steps[1..]);
    }
  }

  // Vaults in which nothing is ever stranded.

  /** A group has at most one wallet of a flat kind. */
  ghost predicate OneOfAKind(ws: seq<Entry>) {
    forall a, b :: a in ws && b in ws && a.kind == b.kind && a.kind.Flat() && a.GroupKey() == b.GroupKey() ==> a == b
  }

  /** The group holds no single-chain account. */
  ghost predicate OpenToSeeds(ws: seq<Entry>, group: string) {
    forall w :: w in ws && w.GroupKey() == group ==> !w.kind.SingleChain()
  }

  /** The app's own discipline, without looking at seeds: flat saves are guarded and go to groups
      without single-chain accounts, new ids are new, and an added wallet starts a group or fills
      its slot. */
  ghost predicate Disciplined(v: VaultV3, step: Step) {
    match step
    case FlatSave(flat, replaced, active, now, ids) =>
      && Fresh(ids, v.wallets) && GuardedSave(ProjectV3ToV2(v, active), flat, replaced)
      && OpenToSeeds(v.wallets, TargetOf(Some(v), active, now, ids).group)
    case Forget(_, active, now, ids) =>
      Fresh(ids, v.wallets) && OpenToSeeds(v.wallets, TargetOf(Some(v), active, now, ids).group)
    case AddWallet(spec, _, id, group) =>
      && (forall w :: w in v.wallets ==> w.id != id && w.GroupKey() != group)
      && (spec.groupId.Some? ==> spec.groupId == PrimaryGroupSlotFor(v, spec.kind))
    case AddXelis(_, _, _, id, _) => forall w :: w in v.wallets ==> w.id != id
    case _ => true
  }

  ghost predicate AllDisciplined(v: VaultV3, steps: seq<Step>)
    decreases |steps|
  {
    steps == [] || (Disciplined(v, steps[0]) && AllDisciplined(Runs.After(v, steps[0]), steps[1..]))
  }

  lemma OnlyOneIsFirst(ws: seq<Entry>, group: string, flat: Payload, v: VaultV3, asked: set<SeedKey>)
    requires v.wallets == ws && OneOfAKind(ws) && OpenToSeeds(ws, group)
    ensures NothingStranded(v, group, flat, asked)
  {
    forall w | w in ws ensures !Stranded(ws, group, w) {
      if w.GroupKey() == group && !w.kind.Xelis? {
        var p := OfKindIn(w.kind, group);
        forall x | x in ws && p(x) ensures x == w {
        }
        FindOnly(p, ws, w);
      }
    }
  }

  lemma DisciplineKeeps(v: VaultV3, step: Step)
    requires OneOfAKind(v.wallets) && Disciplined(v, step)
    ensures StrandsNone(v, step)
  {
    hide OneOfAKind, OpenToSeeds, NothingStranded, GuardedSave, ProjectV3ToV2;
    match step
    case FlatSave(flat, replaced, active, now, ids) =>
      OnlyOneIsFirst(v.wallets, TargetOf(Some(v), active, now, ids).group, flat, v, {});
    case Forget(kind, active, now, ids) =>
      OnlyOneIsFirst(v.wallets, TargetOf(Some(v), active, now, ids).group, Cleared(ProjectV3ToV2(v, active), kind), v,
          Dropped(v, step));
    case _ =>
  }

  lemma MergeKeepsOneOfAKind(flat: Payload, t: Target)
    requires OneOfAKind(t.Wallets())
    ensures OneOfAKind(t.Merged(flat))
  {
    var merged := t.Merged(flat);
    forall a, b | a in merged && b in merged && a.kind == b.kind && a.kind.Flat() && a.GroupKey() == b.GroupKey()
      ensures a == b
    {
      InMerged(flat, t, a);
      InMerged(flat, t, b);
      if t.Rebuilt(flat, a.kind).Some? {
        RebuiltShape(flat, t, a.kind);
      }
    }
  }

  lemma AppendKeepsOneOfAKind(ws: seq<Entry>, e: Entry)
    requires OneOfAKind(ws) && (e.kind.Flat() ==> FirstIn(ws, e.kind, e.GroupKey()).None?)
    ensures OneOfAKind(ws + [e])
  {
    if e.kind.Flat() {
      forall w | w in ws ensures !(w.kind == e.kind && w.GroupKey() == e.GroupKey()) {
        assert !OfKindIn(e.kind, e.GroupKey())(w);
      }
    }
  }

  lemma MapKeepsOneOfAKind(ws: seq<Entry>, f: Entry -> Entry)
    requires OneOfAKind(ws) && forall w :: w in ws ==> f(w).kind == w.kind && f(w).GroupKey() == w.GroupKey()
    ensures OneOfAKind(Map(f, ws))
  {
    var r := Map(f, ws);
    forall a, b | a in r && b in r && a.kind == b.kind && a.kind.Flat() && a.GroupKey() == b.GroupKey() ensures a == b {
      var i :| 0 <= i < |ws| && r[i] == a;
      var j :| 0 <= j < |ws| && r[j] == b;
      assert ws[i] in ws && ws[j] in ws;
    }
  }

  lemma AddedWalletHasPlace(v: VaultV3, spec: NewWalletSpec, now: int, id: string, group: string)
    requires Disciplined(v, AddWallet(spec, now, id, group))
    ensures var e := NewEntry(spec, now, id, group); e.kind.Flat() ==> FirstIn(v.wallets, e.kind, e.GroupKey()).None?
  {
    var e := NewEntry(spec, now, id, group);
    var r := FirstIn(v.wallets, e.kind, e.GroupKey());
    if r.Some? && e.kind.Flat() {
      assert OfKindIn(e.kind, e.GroupKey())(r.value);
    }
  }

  lemma StepKeepsOneOfAKind(v: VaultV3, step: Step)
    requires UniqueIds(v.wallets) && OneOfAKind(v.wallets) && Disciplined(v, step)
    ensures OneOfAKind(Runs.After(v, step).wallets)
  {
    hide GuardedSave, NormalizeSeed, GroupIdForWallet, XelisName, Repaired, ProjectV3ToV2, PrimaryGroupSlotFor;
    match step
    case FlatSave(flat, _, active, now, ids) => MergeKeepsOneOfAKind(flat, TargetOf(Some(v), active, now, ids));
    case Forget(kind, active, now, ids) =>
      MergeKeepsOneOfAKind(Cleared(ProjectV3ToV2(v, active), kind), TargetOf(Some(v), active, now, ids));
    case AddWallet(spec, now, id, group) =>
      AddedWalletHasPlace(v, spec, now, id, group);
      AppendKeepsOneOfAKind(v.wallets, NewEntry(spec, now, id, group));
    case AddXelis(seed, active, now, id, group) =>
      var r := AddXelisWalletToContext(v, seed, active, now, id, group);
      if r.Ok? && r.value.created {
        AppendKeepsOneOfAKind(v.wallets, r.value.entry);
      }
    case Rename(id, name) => MapKeepsOneOfAKind(v.wallets, Renamed(id, name));
    case RepairFiles(rank) =>
      RepairIsAfter(v, rank);
      hide IsMoved;
      MapKeepsOneOfAKind(v.wallets, RepairLaws.After(v.wallets, Order(v, rank)));
    case SwitchTo(active) =>
    case Remove(id) =>
  }

  /** From any vault with unique ids and one wallet of a kind per group, whatever files its wallets
      are on and whether they are grouped or not, the app's discipline strands nothing. */
  lemma {:induction false} DisciplinedRunKeeps(v: VaultV3, steps: seq<Step>)
    requires UniqueIds(v.wallets) && OneOfAKind(v.wallets) && AllDisciplined(v, steps)
    ensures AllStrandNone(v, steps)
    decreases |steps|
  {
    if steps != [] {
      DisciplineKeeps(v, steps[0]);
      StepKeepsIds(v, steps[0]);
      StepKeepsOneOfAKind(v, steps[0]);
      hide OneOfAKind, StrandsNone, Disciplined, UniqueIds, Runs.After;
      DisciplinedRunKeeps(Runs.After(v, steps[0]), steps[1..]);
    }
  }

  lemma DisciplinedRunLosesNone(v: VaultV3, steps: seq<Step>)
    requires UniqueIds(v.wallets) && OneOfAKind(v.wallets) && AllDisciplined(v, steps)
    ensures Held(v.wallets) - DroppedInRun(v, steps) <= Held(RunAll(v, steps).wallets)
  {
    DisciplinedRunKeeps(v, steps);
    NoSeedLost(v, steps);
  }

  /** In particular none of the seeds a vault was migrated with. */
  lemma MigratedSeedsStay(v2: Payload, now: int, ids: FreshIds, steps: seq<Step>, kind: Kind)
    requires Fresh(ids, []) && AllDisciplined(MigrateV2ToV3(v2, now, ids), steps)
    requires kind.Flat() && FlatKey(v2, kind).words != ""
    ensures var v := MigrateV2ToV3(v2, now, ids);
            FlatKey(v2, kind) in DroppedInRun(v, steps) || FlatKey(v2, kind) in Held(RunAll(v, steps).wallets)
  {
    var v, t := MigrateV2ToV3(v2, now, ids), Target(None, ids.group, now, ids);
    hide Held, DroppedInRun, RunAll, AllDisciplined, FlatKey, SeedOf, MigrateV2ToV3;
    LensLaws.MigratedKinds(v2, now, ids);
    MergeKeepsIdsUnique(v2, t);
    MergeKeepsOneOfAKind(v2, t);
    DisciplinedRunLosesNone(v, steps);
    RebuiltSeed(v2, t, kind);
    RebuiltShape(v2, t, kind);
    InMerged(v2, t, t.Rebuilt(v2, kind).value);
    InHeld(v.wallets, t.Rebuilt(v2, kind).value);
  }
}
