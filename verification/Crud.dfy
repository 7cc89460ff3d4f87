/** Adding, renaming and removing wallets: edits of the stored vault that do not go through the
    flat payload. */
module Crud {
  import opened Wrappers
  import opened Seqs
  import opened Vault
  import opened Contexts

  /** What a wallet added after unlock is made of. */
  datatype NewWalletSpec = NewWalletSpec(
    kind: Kind,
    seed: string,
    name: string,
    derivation: Option<Derivation>,
    xmrFormat: Option<SeedFormat>,
    restoreHeight: Option<int>,
    zanoPassphrase: Option<string>,
    chain: Option<string>,
    address: Option<string>,
    groupId: Option<string>)

  function NewEntry(spec: NewWalletSpec, now: int, id: string, freshGroup: string): Entry {
    var base := Entry(id, spec.name, spec.kind, spec.seed, now, Some(spec.groupId.GetOr(freshGroup)),
                      None, None, None, None, None, None, None);
    match spec.kind
    case Bip39 => base.(derivation := spec.derivation)
    case Xmr => base.(restoreHeight := spec.restoreHeight, sidecarFile := Some(NewSidecarFile(Xmr, id)),
        xmrFormat := spec.xmrFormat)
    case Zph => base.(restoreHeight := spec.restoreHeight, sidecarFile := Some(NewSidecarFile(Zph, id)))
    case Zano => base.(sidecarFile := Some(NewSidecarFile(Zano, id)), zanoPassphrase := Normal(spec.zanoPassphrase))
    case Xelis => base.(sidecarFile := Some(NewSidecarFile(Xelis, id)))
    case _ => base.(chain := spec.chain, address := spec.address)
  }

  function AddWalletEntry(v: VaultV3, spec: NewWalletSpec, now: int, id: string, freshGroup: string): VaultV3 {
    v.(wallets := v.wallets + [NewEntry(spec, now, id, freshGroup)])
  }

  /** The slot an added Monero, Zephyr, Zano or Xelis wallet fills: the primary group, when it has
      none of that kind. */
  function PrimaryGroupSlotFor(v: VaultV3, kind: Kind): Option<string> {
    var primary := PrimaryGroup(v.wallets);
    if !kind.HasFile() || primary.None? then None
    else if FirstIn(v.wallets, kind, primary.value).Some? then None
    else if kind.Zano? && LegacyZanoSeedFor(v, primary).Some? then None
    else primary
  }

  datatype XelisRefusal = OtherXelisSeedHere | SavedAs(name: string)

  datatype XelisSaved = XelisSaved(v: VaultV3, entry: Entry, created: bool)

  function InContextGroup(group: string): Context -> bool {
    (c: Context) => c.groupId == group
  }

  function XelisName(v: VaultV3, group: Option<string>): string {
    var c := if group.None? then None else Find(InContextGroup(group.value), ListContexts(v));
    if c.Some? then c.value.name + " · Xelis" else "Xelis wallet"
  }

  /** Puts a Xelis wallet into the context of `active`. */
  function AddXelisWalletToContext(v: VaultV3, seed: string, active: Option<string>, now: int, id: string,
                                   freshGroup: string)
    : Result<XelisSaved, XelisRefusal>
  {
    var group := GroupIdForWallet(v, active);
    var present := if group.None? then None else FirstIn(v.wallets, Xelis, group.value);
    if present.Some? then
      if NormalizeSeed(present.value.seed) == NormalizeSeed(seed) then Ok(XelisSaved(v, present.value, false))
      else Err(OtherXelisSeedHere)
    else
      var duplicate := FindDuplicateSeed(v, seed);
      if duplicate.Some? then Err(SavedAs(duplicate.value.name)) else
        var spec := NewWalletSpec(Xelis, seed, XelisName(v, group), None, None, None, None, None, None, group);
        Ok(XelisSaved(AddWalletEntry(v, spec, now, id, freshGroup), NewEntry(spec, now, id, freshGroup), true))
  }

  function Renamed(id: string, name: string): Entry -> Entry {
    (w: Entry) => if w.id == id then w.(name := name) else w
  }

  function RenameWalletEntry(v: VaultV3, id: string, name: string): VaultV3 {
    v.(wallets := Map(Renamed(id, name), v.wallets))
  }

  function OtherThan(id: string): Entry -> bool {
    (w: Entry) => w.id != id
  }

  function RemoveWalletEntry(v: VaultV3, id: string): VaultV3 {
    v.(wallets := Filter(OtherThan(id), v.wallets),
       lastActive := if v.lastActive == Some(id) then Some("all") else v.lastActive)
  }

  /** Saving the same Xelis seed again changes nothing. */
  lemma XelisSavedOnce(v: VaultV3, seed: string, active: Option<string>, now: int, id: string, freshGroup: string,
                       now': int, id': string, freshGroup': string)
    requires UniqueIds(v.wallets)
    requires forall w :: w in v.wallets ==> w.id != id
    requires active != Some(id)
    requires AddXelisWalletToContext(v, seed, active, now, id, freshGroup).Ok?
    ensures var first := AddXelisWalletToContext(v, seed, active, now, id, freshGroup).value;
            AddXelisWalletToContext(first.v, seed, active, now', id', freshGroup')
            == Ok(XelisSaved(first.v, first.entry, false))
  {
    var first := AddXelisWalletToContext(v, seed, active, now, id, freshGroup).value;
    GroupIdForWalletIsGroupOf(v, active);
    PrimaryIsAGroup(v.wallets);
    if first.created {
      var ws, e := v.wallets, first.entry;
      assert first.v.wallets == ws + [e];
      if ws == [] {
        FirstWalletGroup(e, active);
        assert ws + [e] == [e];
      } else {
        AppendKeepsGroups(ws, e, active);
      }
      GroupIdForWalletIsGroupOf(first.v, active);
      var p := OfKindIn(Xelis, e.GroupKey());
      FindConcat(p, ws, [e]);
      assert p(e);
    }
  }

  /** The first wallet of a vault is in the group that every other id then stands for. */
  lemma FirstWalletGroup(e: Entry, active: Option<string>)
    requires active != Some(e.id)
    ensures GroupOf([e], active) == Some(e.GroupKey()) && UniqueIds([e])
  {
    var r := Find(OfKind(Bip39), [e]);
  }

  /** Appending a wallet that is not bip39 moves neither the primary group nor any open wallet. */
  lemma AppendKeepsGroups(ws: seq<Entry>, e: Entry, active: Option<string>)
    requires ws != [] && !e.kind.Bip39? && active != Some(e.id)
    requires UniqueIds(ws) && forall w :: w in ws ==> w.id != e.id
    ensures UniqueIds(ws + [e])
    ensures PrimaryGroup(ws + [e]) == PrimaryGroup(ws)
    ensures GroupOf(ws + [e], active) == GroupOf(ws, active)
  {
    FindConcat(OfKind(Bip39), ws, [e]);
    if active.Some? {
      FindConcat(HasId(active.value), ws, [e]);
    }
  }

  /** The entry a standalone or slot add creates is what unlock then reads for that kind. */
  lemma SlotAddIsRead(v: VaultV3, spec: NewWalletSpec, now: int, id: string, freshGroup: string)
    requires UniqueIds(v.wallets) && forall w :: w in v.wallets ==> w.id != id
    requires spec.groupId == PrimaryGroupSlotFor(v, spec.kind) && spec.groupId.Some?
    ensures var v' := AddWalletEntry(v, spec, now, id, freshGroup);
            && PrimaryGroup(v'.wallets) == PrimaryGroup(v.wallets)
            && FirstIn(v'.wallets, spec.kind, spec.groupId.value) == Some(NewEntry(spec, now, id, freshGroup))
            && PrimaryGroupSlotFor(v', spec.kind).None?
  {
    var e := NewEntry(spec, now, id, freshGroup);
    PrimaryIsAGroup(v.wallets);
    AppendKeepsGroups(v.wallets, e, None);
    var p := OfKindIn(spec.kind, spec.groupId.value);
    FindConcat(p, v.wallets, [e]);
    assert p(e);
  }
}
