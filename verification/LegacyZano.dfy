/** The vault-wide Zano seed that predates Zano entries: when a flat save keeps it, and runs that
    never lose it. */
module LegacyZano {
  import opened Wrappers
  import opened Seqs
  import opened Vault
  import opened Contexts
  import opened FlatShape
  import opened Runs
  import opened Seeds

  function LegacyKey(v: VaultV3): SeedKey {
    KeyFor(Zano, v.zanoSeed.GetOr(""), v.zanoPassphrase)
  }

  /** Every seed the vault holds, the vault-wide one included. */
  function Stored(v: VaultV3): set<SeedKey> {
    Held(v.wallets) + (if LegacyKey(v).words == "" then {} else {LegacyKey(v)})
  }

  /** The group that is written reads the vault-wide seed, so the save turns it into an entry. */
  predicate ReadsLegacySeed(v: VaultV3, active: Option<string>) {
    var group := GroupIdForWallet(v, active);
    Find(InSelection(Zano, group), v.wallets).None? && LegacyZanoSeedFor(v, group).Some?
  }

  /** The vault-wide seed is stored as an entry too, or there is none. */
  predicate Promoted(v: VaultV3) {
    LegacyKey(v).words == "" || LegacyKey(v) in Held(v.wallets)
  }

  lemma ProjectedLegacy(v: VaultV3, active: Option<string>)
    requires ReadsLegacySeed(v, active)
    ensures FlatKey(ProjectV3ToV2(v, active), Zano) == LegacyKey(v)
  {
    hide NormalizeSeed, GroupIdForWallet, Find;
  }

  /** A flat seed that is not blank is an entry of the merged list. */
  lemma FlatSeedIsHeld(v: VaultV3, flat: Payload, kind: Kind, active: Option<string>, now: int, ids: FreshIds)
    requires kind.Flat() && FlatKey(flat, kind).words != ""
    ensures FlatKey(flat, kind) in Held(MergeFlatIntoV3(flat, Some(v), active, now, ids).wallets)
  {
    hide Held, FlatKey, MergeFlatIntoV3;
    assert InPayload(flat, FlatKey(flat, kind));
    MergedSeeds(v, flat, TargetOf(Some(v), active, now, ids), FlatKey(flat, kind));
    Seeds.MergedIntoTarget(flat, v, active, now, ids);
  }

  /** The save writes the top-level copy from the payload. */
  lemma LegacyKeyAfter(v: VaultV3, flat: Payload, active: Option<string>, now: int, ids: FreshIds)
    ensures var key := LegacyKey(MergeFlatIntoV3(flat, Some(v), active, now, ids));
            key.words == "" || key == FlatKey(flat, Zano)
  {
    BlankSeed();
    hide NormalizeSeed, GroupIdForWallet;
  }

  lemma SaveKeepsLegacy(v: VaultV3, flat: Payload, replaced: Option<Kind>, active: Option<string>, now: int,
                        ids: FreshIds)
    requires GuardedSave(ProjectV3ToV2(v, active), flat, replaced) && ReadsLegacySeed(v, active)
    requires LegacyKey(v).words != ""
    ensures LegacyKey(v) in Held(MergeFlatIntoV3(flat, Some(v), active, now, ids).wallets)
  {
    hide Held, FlatKey, LegacyKey, ReadsLegacySeed, GuardedSave, ProjectV3ToV2, MergeFlatIntoV3;
    ProjectedLegacy(v, active);
    GuardKeepsKeys(ProjectV3ToV2(v, active), flat, replaced, Zano);
    FlatSeedIsHeld(v, flat, Zano, active, now, ids);
  }

  /** The seeds a projection reads from entries are stored. */
  lemma ReadSeeds(v: VaultV3, active: Option<string>, kind: Kind)
    requires kind.Flat() && (kind.Zano? ==> !ReadsLegacySeed(v, active))
    ensures var s := FlatKey(ProjectV3ToV2(v, active), kind); s.words == "" || s in Held(v.wallets)
  {
    BlankSeed();
    hide NormalizeSeed, GroupIdForWallet, Held;
    var r := Find(InSelection(kind, GroupIdForWallet(v, active)), v.wallets);
    if r.Some? && SeedOf(r.value).words != "" {
      assert InSelection(kind, GroupIdForWallet(v, active))(r.value);
      InHeld(v.wallets, r.value);
    }
  }

  /** A seed the payload does not get from the vault was asked for by the save. */
  lemma NewInPayload(v: VaultV3, flat: Payload, replaced: Option<Kind>, active: Option<string>, kind: Kind)
    requires GuardedSave(ProjectV3ToV2(v, active), flat, replaced) && kind.Flat()
    requires replaced != Some(kind) && (kind.Zano? ==> !ReadsLegacySeed(v, active))
    ensures FlatKey(flat, kind).words == "" || FlatKey(flat, kind) in Held(v.wallets)
  {
    ReadSeeds(v, active, kind);
    hide NormalizeSeed, Held, ProjectV3ToV2, ReadsLegacySeed;
    assert FlatKey(flat, kind) == FlatKey(ProjectV3ToV2(v, active), kind);
  }

  /** A guarded save that does not itself bring in the same words keeps an unpromoted vault-wide
      seed exactly when the context it writes is the one that reads it. */
  lemma LegacySeedKeptExactly(v: VaultV3, flat: Payload, replaced: Option<Kind>, active: Option<string>, now: int,
                              ids: FreshIds)
    requires GuardedSave(ProjectV3ToV2(v, active), flat, replaced) && !Promoted(v)
    requires replaced.None? || ReadsLegacySeed(v, active) || FlatKey(flat, replaced.value) != LegacyKey(v)
    ensures LegacyKey(v) in Stored(MergeFlatIntoV3(flat, Some(v), active, now, ids)) <==> ReadsLegacySeed(v, active)
  {
    var after := MergeFlatIntoV3(flat, Some(v), active, now, ids);
    hide FlatKey, ReadsLegacySeed, GuardedSave, ProjectV3ToV2, MergeFlatIntoV3, LegacyKey;
    if ReadsLegacySeed(v, active) {
      SaveKeepsLegacy(v, flat, replaced, active, now, ids);
    } else {
      forall k: Kind | k.Flat() ensures FlatKey(flat, k) != LegacyKey(v) {
        if replaced != Some(k) {
          NewInPayload(v, flat, replaced, active, k);
        }
      }
      LegacyKeyAfter(v, flat, active, now, ids);
      NotMerged(v, flat, active, now, ids, LegacyKey(v));
    }
  }

  lemma NotMerged(v: VaultV3, flat: Payload, active: Option<string>, now: int, ids: FreshIds, s: SeedKey)
    requires s !in Held(v.wallets) && forall k: Kind :: k.Flat() ==> FlatKey(flat, k) != s
    ensures s !in Held(MergeFlatIntoV3(flat, Some(v), active, now, ids).wallets)
  {
    var t := TargetOf(Some(v), active, now, ids);
    hide FlatKey, SeedOf, MergeFlatIntoV3;
    Seeds.MergedIntoTarget(flat, v, active, now, ids);
    MergedSeeds(v, flat, t, s);
    assert Held(Filter(Carried(t.group), v.wallets)) <= Held(v.wallets);
  }

  // Runs.

  /** Before a flat save, an unpromoted vault-wide seed must be one the written group reads. */
  ghost predicate LegacyGuard(v: VaultV3, step: Step) {
    match step
    case FlatSave(_, _, active, _, _) => Promoted(v) || ReadsLegacySeed(v, active)
    case Forget(_, active, _, _) => Promoted(v) || ReadsLegacySeed(v, active)
    case _ => true
  }

  ghost predicate AllGuarded(v: VaultV3, steps: seq<Step>)
    decreases |steps|
  {
    steps == [] || (LegacyGuard(v, steps[0]) && AllGuarded(Runs.After(v, steps[0]), steps[1..]))
  }

  lemma ForgetKeepsLegacy(v: VaultV3, kind: Kind, active: Option<string>, now: int, ids: FreshIds)
    requires ReadsLegacySeed(v, active) && LegacyKey(v).words != ""
    ensures var step := Forget(kind, active, now, ids);
            LegacyKey(v) in Dropped(v, step) || LegacyKey(v) in Held(Runs.After(v, step).wallets)
  {
    hide Held, FlatKey, LegacyKey, ReadsLegacySeed, ProjectV3ToV2, MergeFlatIntoV3, Cleared;
    var current := ProjectV3ToV2(v, active);
    ProjectedLegacy(v, active);
    if kind != Zano {
      ClearedKey(current, kind, Zano);
      FlatSeedIsHeld(v, Cleared(current, kind), Zano, active, now, ids);
    }
  }

  lemma OtherStepsKeepLegacy(v: VaultV3, step: Step)
    requires !step.FlatSave? && !step.Forget?
    ensures LegacyKey(Runs.After(v, step)) == LegacyKey(v)
  {
  }

  lemma StepKeepsStored(v: VaultV3, step: Step)
    requires UniqueIds(v.wallets) && StrandsNone(v, step) && LegacyGuard(v, step)
    ensures Stored(v) - Dropped(v, step) <= Stored(Runs.After(v, step))
  {
    StepKeepsSeeds(v, step);
    if step.FlatSave? {
      if !Promoted(v) {
        SaveKeepsLegacy(v, step.flat, step.replaced, step.active, step.now, step.ids);
      }
    } else if step.Forget? {
      if !Promoted(v) {
        ForgetKeepsLegacy(v, step.kind, step.active, step.now, step.ids);
      }
    } else {
      OtherStepsKeepLegacy(v, step);
    }
    hide Held, LegacyKey, Runs.After, Dropped;
  }

  /** No run loses a seed, the vault-wide one included, while flat saves go to the context that
      reads it until it has become an entry. */
  lemma {:induction false} NoStoredSeedLost(v: VaultV3, steps: seq<Step>)
    requires UniqueIds(v.wallets) && AllStrandNone(v, steps) && AllGuarded(v, steps)
    ensures Stored(v) - DroppedInRun(v, steps) <= Stored(RunAll(v, steps))
    decreases |steps|
  {
    if steps != [] {
      StepKeepsStored(v, steps[0]);
      StepKeepsIds(v, steps[0]);
      hide Stored, StrandsNone, Dropped, UniqueIds, Runs.After, LegacyGuard;
      NoStoredSeedLost(Runs.After(v, steps[0]), steps[1..]);
    }
  }
}
