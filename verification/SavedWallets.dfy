/** Reading and saving stated field by field, on positions, stored fields and literal file names:
    which wallet each part of the flat payload comes from, and what a flat save stores. */
module SavedWallets {
  import opened Wrappers
  import opened Seqs
  import opened Vault
  import opened Contexts
  import opened FlatShape
  import opened MergeOrder
  import opened MergeLaws
  import opened FileNames

  // What is read.

  /** The wallet is of that kind, in the group it names or, naming none, is on its own. */
  predicate SitsIn(w: Entry, kind: Kind, group: string) {
    w.kind == kind && (if w.groupId.Some? then w.groupId.value else w.id) == group
  }

  /** The wallet at `i` is the first of its kind in the group. */
  ghost predicate FirstAt(ws: seq<Entry>, i: nat, kind: Kind, group: string) {
    i < |ws| && SitsIn(ws[i], kind, group) && forall j :: 0 <= j < i ==> !SitsIn(ws[j], kind, group)
  }

  ghost predicate NoneIn(ws: seq<Entry>, kind: Kind, group: string) {
    forall w :: w in ws ==> !SitsIn(w, kind, group)
  }

  lemma FirstByPosition(ws: seq<Entry>, i: nat, kind: Kind, group: string)
    requires FirstAt(ws, i, kind, group)
    ensures FirstIn(ws, kind, group) == Some(ws[i])
  {
    var p := OfKindIn(kind, group);
    assert forall w :: w in ws[..i] ==> !SitsIn(w, kind, group);
    assert ws == ws[..i] + ws[i..];
    FindConcat(p, ws[..i], ws[i..]);
    assert forall w :: w in ws[..i] ==> !p(w);
  }

  lemma NoneFound(ws: seq<Entry>, kind: Kind, group: string)
    requires NoneIn(ws, kind, group)
    ensures FirstIn(ws, kind, group).None?
  {
    assert forall w :: w in ws ==> !OfKindIn(kind, group)(w);
  }

  /** The wallet at `i` leads the vault: it is the first bip39 one, whatever comes before it, or the
      first of all when none is bip39. */
  ghost predicate Leads(ws: seq<Entry>, i: nat) {
    && i < |ws|
    && (if ws[i].kind.Bip39? then forall j :: 0 <= j < i ==> !ws[j].kind.Bip39?
        else i == 0 && forall w :: w in ws ==> !w.kind.Bip39?)
  }

  /** The primary group is that of the leading wallet. */
  lemma PrimaryByPosition(ws: seq<Entry>, i: nat)
    requires Leads(ws, i)
    ensures PrimaryGroup(ws) == Some(if ws[i].groupId.Some? then ws[i].groupId.value else ws[i].id)
  {
    var p := OfKind(Bip39);
    assert forall j :: 0 <= j < i ==> !ws[j].kind.Bip39?;
    assert ws == ws[..i] + ws[i..];
    FindConcat(p, ws[..i], ws[i..]);
    assert forall w :: w in ws[..i] ==> !p(w);
  }

  /** Each part of the flat payload is read from the first wallet of its kind in the open group. */
  lemma ReadByPosition(v: VaultV3, active: Option<string>, kind: Kind, i: nat)
    requires GroupIdForWallet(v, active).Some?
    requires FirstAt(v.wallets, i, kind, GroupIdForWallet(v, active).value)
    ensures var p, w := ProjectV3ToV2(v, active), v.wallets[i];
            match kind
            case Bip39 => p.bip39 == w.seed && p.derivation == w.derivation
            case Xmr => p.xmrSeed == Some(w.seed) && p.xmrFormat == w.xmrFormat && p.xmrHeight == w.restoreHeight
            case Zph => p.zphSeed == Some(w.seed) && p.zphHeight == w.restoreHeight
            case Zano => p.zanoSeed == Some(w.seed) && p.zanoPassphrase == w.zanoPassphrase
            case _ => true
    ensures ProjectV3ToV2(v, active).devFeeAck == v.devFeeAck
  {
    hide GroupIdForWallet;
    FirstByPosition(v.wallets, i, kind, GroupIdForWallet(v, active).value);
  }

  /** Without one the part is absent; for Zano the vault-wide seed stands in, in the primary group
      and nowhere else. */
  lemma ReadWithoutOne(v: VaultV3, active: Option<string>, kind: Kind)
    requires GroupIdForWallet(v, active).Some?
    requires NoneIn(v.wallets, kind, GroupIdForWallet(v, active).value)
    ensures var p, group := ProjectV3ToV2(v, active), GroupIdForWallet(v, active);
            match kind
            case Bip39 => p.bip39 == "" && p.derivation.None?
            case Xmr => p.xmrSeed.None? && p.xmrFormat.None? && p.xmrHeight.None?
            case Zph => p.zphSeed.None? && p.zphHeight.None?
            case Zano =>
              if group == PrimaryGroup(v.wallets) && Truthy(v.zanoSeed)
              then p.zanoSeed == v.zanoSeed && p.zanoPassphrase == Normal(v.zanoPassphrase)
              else p.zanoSeed.None? && p.zanoPassphrase.None?
            case _ => true
  {
    hide GroupIdForWallet;
    NoneFound(v.wallets, kind, GroupIdForWallet(v, active).value);
  }

  // What is saved.

  function GroupBefore(existing: Option<VaultV3>, active: Option<string>, ids: FreshIds): string {
    if existing.None? then ids.group else GroupIdForWallet(existing.value, active).GetOr(ids.group)
  }

  function WalletsBefore(existing: Option<VaultV3>): seq<Entry> {
    if existing.None? then [] else existing.value.wallets
  }

  function DefaultName(kind: Kind): string {
    match kind
    case Xmr => "Main · Monero"
    case Zph => "Main · Zephyr"
    case Zano => "Main · Zano"
    case _ => "Main"
  }

  /** The saved wallet carries the payload's part, and nothing else. */
  predicate CarriesPart(e: Entry, flat: Payload) {
    && e.chain.None? && e.address.None?
    && match e.kind
       case Bip39 =>
         && e.seed == flat.bip39 && e.derivation == flat.derivation
         && e.xmrFormat.None? && e.restoreHeight.None? && e.sidecarFile.None? && e.zanoPassphrase.None?
       case Xmr =>
         && Some(e.seed) == flat.xmrSeed && e.xmrFormat == flat.xmrFormat && e.restoreHeight == flat.xmrHeight
         && e.derivation.None? && e.zanoPassphrase.None?
       case Zph =>
         && Some(e.seed) == flat.zphSeed && e.restoreHeight == flat.zphHeight
         && e.xmrFormat.None? && e.derivation.None? && e.zanoPassphrase.None?
       case Zano =>
         && Some(e.seed) == flat.zanoSeed
         && e.zanoPassphrase == (if Truthy(flat.zanoPassphrase) then flat.zanoPassphrase else None)
         && e.xmrFormat.None? && e.restoreHeight.None? && e.derivation.None?
       case _ => false
  }

  /** For each kind the payload has a seed for, the save stores one wallet in the open group: with the
      id, name and age of the first that was there, or new ones. */
  lemma SavedWallet(flat: Payload, existing: Option<VaultV3>, active: Option<string>, now: int, ids: FreshIds,
                    kind: Kind)
    requires kind.Flat() && (kind.Bip39? || Truthy(FlatSeed(flat, kind)))
    ensures var group, ws := GroupBefore(existing, active, ids), WalletsBefore(existing);
            var after := MergeFlatIntoV3(flat, existing, active, now, ids);
            var e := FirstIn(after.wallets, kind, group);
            && e.Some? && e.value.kind == kind && e.value.groupId == Some(group) && CarriesPart(e.value, flat)
            && (forall w :: w in after.wallets && w.kind == kind && w.GroupKey() == group ==> w == e.value)
            && (if FirstIn(ws, kind, group).Some? then
                  var p := FirstIn(ws, kind, group).value;
                  e.value.id == p.id && e.value.name == p.name && e.value.createdAt == p.createdAt
                else e.value.id == ids.For(kind) && e.value.name == DefaultName(kind) && e.value.createdAt == now)
  {
    hide GroupIdForWallet;
    var t := TargetOf(existing, active, now, ids);
    FirstOfTarget(flat, t, kind);
    RebuiltPart(flat, t, kind);
    hide Target.Rebuilt, CarriesPart, FirstIn;
    forall w | w in t.Merged(flat) && w.kind == kind && w.GroupKey() == t.group
      ensures t.Rebuilt(flat, kind) == Some(w) {
      InMerged(flat, t, w);
    }
  }

  lemma RebuiltPart(flat: Payload, t: Target, kind: Kind)
    requires kind.Flat() && (kind.Bip39? || Truthy(FlatSeed(flat, kind)))
    ensures var e := t.Rebuilt(flat, kind);
            && e.Some? && e.value.kind == kind && e.value.groupId == Some(t.group) && CarriesPart(e.value, flat)
            && (if t.Prev(kind).Some? then
                  var p := t.Prev(kind).value;
                  e.value.id == p.id && e.value.name == p.name && e.value.createdAt == p.createdAt
                else e.value.id == t.ids.For(kind) && e.value.name == DefaultName(kind) && e.value.createdAt == t.now)
  {
    hide FirstIn, Target.ZanoFile, Target.XmrOrZphFile;
  }

  /** A kind whose seed the payload lacks has no wallet in the open group afterwards. */
  lemma ForgottenKind(flat: Payload, existing: Option<VaultV3>, active: Option<string>, now: int, ids: FreshIds,
                      w: Entry)
    requires w in MergeFlatIntoV3(flat, existing, active, now, ids).wallets
    requires w.GroupKey() == GroupBefore(existing, active, ids)
    ensures w.kind.Xelis? || w.kind.Bip39? || (w.kind.Flat() && Truthy(FlatSeed(flat, w.kind)))
  {
    hide GroupIdForWallet;
    InMerged(flat, TargetOf(existing, active, now, ids), w);
  }

  /** Some wallet of the kind opens the file. */
  ghost predicate Opens(ws: seq<Entry>, kind: Kind, file: string) {
    exists w :: w in ws && w.kind == kind && w.File() == Some(file)
  }

  ghost function NewFile(existing: Option<VaultV3>, group: string, ids: FreshIds, kind: Kind): string {
    var ws := WalletsBefore(existing);
    match kind
    case Xmr => if Opens(ws, Xmr, "pwnda-active") then "pwnda-xmr-" + ids.xmr else "pwnda-active"
    case Zph => if Opens(ws, Zph, "pwnda-zph-active") then "pwnda-zph-" + ids.zph else "pwnda-zph-active"
    case _ =>
      if existing.None? || Truthy(existing.value.zanoSeed) then "pwnda.zan" else "pwnda-zano-" + group + ".zan"
  }

  function NamelessFile(existing: Option<VaultV3>, id: string, kind: Kind): string {
    match kind
    case Xmr => "pwnda-active"
    case Zph => "pwnda-zph-active"
    case _ =>
      if existing.Some? && !Truthy(existing.value.zanoSeed) then "pwnda-zano-" + id + ".zan" else "pwnda.zan"
  }

  /** The file of the saved wallet. An entry that stores a name keeps it. A new Monero or Zephyr wallet
      takes the legacy file exactly when no wallet of its kind opens it; a new Zano wallet does exactly
      when there is no vault or it carries a vault-wide Zano seed, and else is named after its group. */
  lemma SavedFile(flat: Payload, existing: Option<VaultV3>, active: Option<string>, now: int, ids: FreshIds, kind: Kind)
    requires (kind.Xmr? || kind.Zph? || kind.Zano?) && Truthy(FlatSeed(flat, kind))
    ensures var group, ws := GroupBefore(existing, active, ids), WalletsBefore(existing);
            var after := MergeFlatIntoV3(flat, existing, active, now, ids);
            var e, p := FirstIn(after.wallets, kind, group), FirstIn(ws, kind, group);
            && e.Some?
            && e.value.File() == Some(
                 if p.None? then NewFile(existing, group, ids, kind)
                 else if p.value.sidecarFile.Some? then p.value.sidecarFile.value
                 else NamelessFile(existing, p.value.id, kind))
  {
    hide GroupIdForWallet;
    var t := TargetOf(existing, active, now, ids);
    FirstOfTarget(flat, t, kind);
    assert !kind.Zano? ==> (LegacyFileHeld(kind, t.Wallets()) <==> Opens(t.Wallets(), kind, LegacyFile(kind)));
  }

  /** Of the vault around the list, a save keeps the active wallet, the balance cache and the
      acknowledgment, and sets the vault-wide Zano fields to the payload's. */
  lemma SavedAround(flat: Payload, existing: Option<VaultV3>, active: Option<string>, now: int, ids: FreshIds)
    ensures var after := MergeFlatIntoV3(flat, existing, active, now, ids);
            && after.balanceCache == (if existing.Some? then existing.value.balanceCache else None)
            && (existing.Some? && existing.value.lastActive.Some? ==> after.lastActive == existing.value.lastActive)
            && (existing.Some? && flat.devFeeAck.None? ==> after.devFeeAck == existing.value.devFeeAck)
            && (existing.None? || existing.value.lastActive.None? ==> after.lastActive == Some("all"))
            && (flat.devFeeAck.Some? || existing.None? ==> after.devFeeAck == flat.devFeeAck)
            && (if Truthy(flat.zanoSeed)
                then after.zanoSeed == flat.zanoSeed
                     && after.zanoPassphrase == (if Truthy(flat.zanoPassphrase) then flat.zanoPassphrase else None)
                else after.zanoSeed.None? && after.zanoPassphrase.None?)
  {
    hide GroupIdForWallet, Target.Merged;
  }
}
