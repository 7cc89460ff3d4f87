/** The three conversions between the flat payload and the stored vault: migration, projection of
    one context, and the merge that folds a flat payload back in. */
module FlatShape {
  import opened Wrappers
  import opened Seqs
  import opened StableSort
  import opened Vault
  import opened Contexts

  /** The ids `genId` hands out, named by the place that asks for one. */
  datatype FreshIds = FreshIds(group: string, bip39: string, xmr: string, zph: string, zano: string) {
    function For(kind: Kind): string {
      match kind
      case Bip39 => bip39
      case Xmr => xmr
      case Zph => zph
      case _ => zano
    }
  }

  ghost predicate Fresh(ids: FreshIds, ws: seq<Entry>) {
    && ids.bip39 != ids.xmr && ids.bip39 != ids.zph && ids.bip39 != ids.zano
    && ids.xmr != ids.zph && ids.xmr != ids.zano && ids.zph != ids.zano
    && forall w :: w in ws ==> NotFresh(ids, w.id) && ids.group != w.GroupKey()
  }

  predicate NotFresh(ids: FreshIds, id: string) {
    id != ids.bip39 && id != ids.xmr && id != ids.zph && id != ids.zano
  }

  function FlatEntry(id: string, name: string, kind: Kind, seed: string, createdAt: int, group: string): Entry {
    Entry(id, name, kind, seed, createdAt, Some(group), None, None, None, None, None, None, None)
  }

  // Migration.

  function AsList<T>(o: Option<T>): seq<T> {
    match o
    case Some(x) => [x]
    case None => []
  }

  function MigrateV2ToV3(v2: Payload, now: int, ids: FreshIds): VaultV3 {
    var bip39 := FlatEntry(ids.bip39, "Main", Bip39, v2.bip39, now, ids.group).(derivation := v2.derivation);
    var xmr := if !Truthy(v2.xmrSeed) then None else
      Some(FlatEntry(ids.xmr, "Main · Monero", Xmr, v2.xmrSeed.value, now, ids.group)
        .(xmrFormat := v2.xmrFormat, restoreHeight := v2.xmrHeight, sidecarFile := Some(LEGACY_XMR_FILE)));
    var zph := if !Truthy(v2.zphSeed) then None else
      Some(FlatEntry(ids.zph, "Main · Zephyr", Zph, v2.zphSeed.value, now, ids.group)
        .(restoreHeight := v2.zphHeight, sidecarFile := Some(LEGACY_ZPH_FILE)));
    var zano := if !Truthy(v2.zanoSeed) then None else
      Some(FlatEntry(ids.zano, "Main · Zano", Zano, v2.zanoSeed.value, now, ids.group)
        .(sidecarFile := Some(LEGACY_ZANO_FILE), zanoPassphrase := Normal(v2.zanoPassphrase)));
    VaultV3([bip39] + AsList(xmr) + AsList(zph) + AsList(zano), Some("all"), v2.devFeeAck, None, None, None)
  }

  /** The migration as the source runs it: one push per seed the payload has. */
  method MigrateByPushing(v2: Payload, now: int, ids: FreshIds) returns (v3: VaultV3)
    ensures v3 == MigrateV2ToV3(v2, now, ids)
  {
    var wallets := [FlatEntry(ids.bip39, "Main", Bip39, v2.bip39, now, ids.group).(derivation := v2.derivation)];
    if Truthy(v2.xmrSeed) {
      var xmr := FlatEntry(ids.xmr, "Main · Monero", Xmr, v2.xmrSeed.value, now, ids.group);
      wallets := wallets + [xmr.(xmrFormat := v2.xmrFormat, restoreHeight := v2.xmrHeight,
          sidecarFile := Some(LEGACY_XMR_FILE))];
    }
    if Truthy(v2.zphSeed) {
      var zph := FlatEntry(ids.zph, "Main · Zephyr", Zph, v2.zphSeed.value, now, ids.group);
      wallets := wallets + [zph.(restoreHeight := v2.zphHeight, sidecarFile := Some(LEGACY_ZPH_FILE))];
    }
    if Truthy(v2.zanoSeed) {
      var zano := FlatEntry(ids.zano, "Main · Zano", Zano, v2.zanoSeed.value, now,
          ids.group).(sidecarFile := Some(LEGACY_ZANO_FILE));
      if Truthy(v2.zanoPassphrase) {
        zano := zano.(zanoPassphrase := v2.zanoPassphrase);
      }
      wallets := wallets + [zano];
    }
    v3 := VaultV3(wallets, Some("all"), v2.devFeeAck, None, None, None);
  }

  // Projection.

  function InSelection(kind: Kind, group: Option<string>): Entry -> bool {
    if group.None? then OfKind(kind) else OfKindIn(kind, group.value)
  }

  /** The flat payload of one group (of the whole vault when no group is selected). */
  function ProjectGroup(v: VaultV3, group: Option<string>): Payload {
    var bip39 := Find(InSelection(Bip39, group), v.wallets);
    var xmr := Find(InSelection(Xmr, group), v.wallets);
    var zph := Find(InSelection(Zph, group), v.wallets);
    var zano := Find(InSelection(Zano, group), v.wallets);
    var legacyZano := if zano.Some? then None else LegacyZanoSeedFor(v, group);
    Payload(
      if bip39.Some? then bip39.value.seed else "",
      if xmr.Some? then Some(xmr.value.seed) else None,
      if xmr.Some? then xmr.value.xmrFormat else None,
      if xmr.Some? then xmr.value.restoreHeight else None,
      if zph.Some? then Some(zph.value.seed) else None,
      if zph.Some? then zph.value.restoreHeight else None,
      if zano.Some? then Some(zano.value.seed) else if legacyZano.Some? then Some(legacyZano.value.seed) else None,
      if zano.Some? then zano.value.zanoPassphrase else if legacyZano.Some? then legacyZano.value.passphrase else None,
      if bip39.Some? then bip39.value.derivation else None,
      v.devFeeAck)
  }

  function ProjectV3ToV2(v: VaultV3, active: Option<string>): Payload {
    ProjectGroup(v, GroupIdForWallet(v, active))
  }

  // Merge.

  /** The file a new xmr or zph entry gets from a flat save. */
  function FlatSidecarFileFor(kind: Kind, id: string, ws: seq<Entry>): string
    requires kind.Xmr? || kind.Zph?
  {
    var legacy := LegacyFile(kind);
    if LegacyFileHeld(kind, ws) then NewSidecarFile(kind, id) else legacy
  }

  function LegacyFile(kind: Kind): string
    requires kind.Xmr? || kind.Zph? || kind.Zano?
  {
    match kind
    case Xmr => LEGACY_XMR_FILE
    case Zph => LEGACY_ZPH_FILE
    case Zano => LEGACY_ZANO_FILE
  }

  predicate LegacyFileHeld(kind: Kind, ws: seq<Entry>)
    requires kind.Xmr? || kind.Zph? || kind.Zano?
  {
    exists w :: w in ws && w.kind == kind && w.File() == Some(LegacyFile(kind))
  }

  /** Where a flat save goes: the vault it reads, the group it rebuilds, the clock and the ids. */
  datatype Target = Target(existing: Option<VaultV3>, group: string, now: int, ids: FreshIds) {
    function Wallets(): seq<Entry> {
      if existing.Some? then existing.value.wallets else []
    }

    function Prev(kind: Kind): Option<Entry> {
      FirstIn(Wallets(), kind, group)
    }

    function Base(kind: Kind, name: string, seed: string): Entry {
      match Prev(kind)
      case Some(p) => FlatEntry(p.id, p.name, kind, seed, p.createdAt, group)
      case None => FlatEntry(ids.For(kind), name, kind, seed, now, group)
    }

    function XmrOrZphFile(kind: Kind): string
      requires kind.Xmr? || kind.Zph?
    {
      match Prev(kind)
      case Some(p) => p.sidecarFile.GetOr(LegacyFile(kind))
      case None => FlatSidecarFileFor(kind, ids.For(kind), Wallets())
    }

    function ZanoFile(): string {
      var prev := Prev(Zano);
      if prev.Some? && prev.value.sidecarFile.Some? then prev.value.sidecarFile.value
      else if existing.None? || Truthy(existing.value.zanoSeed) then LEGACY_ZANO_FILE
      else NewSidecarFile(Zano, if prev.Some? then prev.value.id else group)
    }

    /** The entry of `kind` that the flat payload describes. */
    function Rebuilt(flat: Payload, kind: Kind): Option<Entry> {
      match kind
      case Bip39 =>
        Some(Base(Bip39, "Main", flat.bip39).(derivation := flat.derivation))
      case Xmr =>
        if !Truthy(flat.xmrSeed) then None else
        Some(Base(Xmr, "Main · Monero", flat.xmrSeed.value).(xmrFormat := flat.xmrFormat,
          restoreHeight := flat.xmrHeight, sidecarFile := Some(XmrOrZphFile(Xmr))))
      case Zph =>
        if !Truthy(flat.zphSeed) then None else
        Some(Base(Zph, "Main · Zephyr", flat.zphSeed.value).(restoreHeight := flat.zphHeight,
          sidecarFile := Some(XmrOrZphFile(Zph))))
      case Zano =>
        if !Truthy(flat.zanoSeed) then None else
        Some(Base(Zano, "Main · Zano", flat.zanoSeed.value).(sidecarFile := Some(ZanoFile()),
          zanoPassphrase := Normal(flat.zanoPassphrase)))
      case _ => None
    }

    function RebuiltList(flat: Payload): seq<Entry> {
      AsList(Rebuilt(flat, Bip39)) + AsList(Rebuilt(flat, Xmr)) + AsList(Rebuilt(flat, Zph))
          + AsList(Rebuilt(flat, Zano))
    }

    function Unsorted(flat: Payload): seq<Entry> {
      RebuiltList(flat) + Filter(OfKindIn(Xelis, group), Wallets()) + Filter(OutsideGroup(group), Wallets())
    }

    function Merged(flat: Payload): seq<Entry> {
      if existing.None? then Unsorted(flat) else Sort(ByRank(Position(Wallets())), Unsorted(flat))
    }
  }

  function OutsideGroup(group: string): Entry -> bool {
    (w: Entry) => w.GroupKey() != group
  }

  /** Index of the last of the first `n` wallets with that id, else `|ws|`. */
  function PositionIn(ws: seq<Entry>, n: nat, id: string): (k: nat)
    requires n <= |ws|
    ensures k < n || k == |ws|
    ensures k < n ==> ws[k].id == id
    ensures k == |ws| ==> forall i :: 0 <= i < n ==> ws[i].id != id
  {
    if n == 0 then |ws| else if ws[n - 1].id == id then n - 1 else PositionIn(ws, n - 1, id)
  }

  /** The sort key of the merge: old wallets by their old position, new ones after all of them. */
  function Position(ws: seq<Entry>): Entry -> int {
    (w: Entry) => PositionIn(ws, |ws|, w.id)
  }

  function TargetOf(existing: Option<VaultV3>, active: Option<string>, now: int, ids: FreshIds): Target {
    var group := if existing.None? then None else GroupIdForWallet(existing.value, active);
    Target(existing, group.GetOr(ids.group), now, ids)
  }

  function MergeAt(flat: Payload, t: Target): VaultV3 {
    VaultV3(
      t.Merged(flat),
      Some(if t.existing.Some? then t.existing.value.lastActive.GetOr("all") else "all"),
      flat.devFeeAck.Or(if t.existing.Some? then t.existing.value.devFeeAck else None),
      if t.existing.Some? then t.existing.value.balanceCache else None,
      Normal(flat.zanoSeed),
      if Truthy(flat.zanoSeed) then Normal(flat.zanoPassphrase) else None)
  }

  function MergeFlatIntoV3(flat: Payload, existing: Option<VaultV3>, active: Option<string>, now: int,
                           ids: FreshIds): VaultV3 {
    MergeAt(flat, TargetOf(existing, active, now, ids))
  }

  /** The rebuilt entries as the source lists them: one push per kind the payload names. */
  method PushRebuilt(flat: Payload, t: Target) returns (wallets: seq<Entry>)
    ensures wallets == t.RebuiltList(flat)
  {
    var bip39 := t.Base(Bip39, "Main", flat.bip39).(derivation := flat.derivation);
    wallets := [bip39];
    assert AsList(t.Rebuilt(flat, Bip39)) == [bip39];
    if Truthy(flat.xmrSeed) {
      var xmr := t.Base(Xmr, "Main · Monero", flat.xmrSeed.value);
      xmr := xmr.(xmrFormat := flat.xmrFormat, restoreHeight := flat.xmrHeight,
          sidecarFile := Some(t.XmrOrZphFile(Xmr)));
      wallets := wallets + [xmr];
      assert t.Rebuilt(flat, Xmr) == Some(xmr);
    }
    assert wallets == AsList(t.Rebuilt(flat, Bip39)) + AsList(t.Rebuilt(flat, Xmr));
    if Truthy(flat.zphSeed) {
      var zph := t.Base(Zph, "Main · Zephyr", flat.zphSeed.value);
      zph := zph.(restoreHeight := flat.zphHeight, sidecarFile := Some(t.XmrOrZphFile(Zph)));
      wallets := wallets + [zph];
      assert t.Rebuilt(flat, Zph) == Some(zph);
    }
    assert wallets == AsList(t.Rebuilt(flat, Bip39)) + AsList(t.Rebuilt(flat, Xmr)) + AsList(t.Rebuilt(flat, Zph));
    if Truthy(flat.zanoSeed) {
      var zano := t.Base(Zano, "Main · Zano", flat.zanoSeed.value);
      zano := zano.(sidecarFile := Some(t.ZanoFile()));
      if Truthy(flat.zanoPassphrase) {
        zano := zano.(zanoPassphrase := flat.zanoPassphrase);
      }
      wallets := wallets + [zano];
      assert t.Rebuilt(flat, Zano) == Some(zano);
    }
  }

  /** The merge as the source runs it: the local list is extended, then sorted in place, and the
      optional fields are set one by one. */
  method MergeByPushing(flat: Payload, existing: Option<VaultV3>, active: Option<string>, now: int, ids: FreshIds)
    returns (v3: VaultV3)
    ensures v3 == MergeFlatIntoV3(flat, existing, active, now, ids)
  {
    var t := TargetOf(existing, active, now, ids);
    var wallets := PushRebuilt(flat, t);
    var merged := wallets + Filter(OfKindIn(Xelis, t.group), t.Wallets()) + Filter(OutsideGroup(t.group), t.Wallets());
    if existing.Some? {
      merged := Sort(ByRank(Position(t.Wallets())), merged);
    }
    v3 := VaultV3(merged, Some("all"), flat.devFeeAck, None, None, None);
    if existing.Some? {
      v3 := v3.(lastActive := Some(existing.value.lastActive.GetOr("all")),
          balanceCache := existing.value.balanceCache);
      if flat.devFeeAck.None? {
        v3 := v3.(devFeeAck := existing.value.devFeeAck);
      }
    }
    if Truthy(flat.zanoSeed) {
      v3 := v3.(zanoSeed := flat.zanoSeed);
      if Truthy(flat.zanoPassphrase) {
        v3 := v3.(zanoPassphrase := flat.zanoPassphrase);
      }
    }
  }
}
