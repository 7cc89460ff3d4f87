/** What adding a wallet stores, and when it is refused. */
module AddLaws {
  import opened Wrappers
  import opened Seqs
  import opened Vault
  import opened Contexts
  import opened Crud
  import opened SavedWallets
  import opened Seeds
  import opened SeedWords

  /** The file that an added wallet is given. */
  function FileFor(kind: Kind, id: string): Option<string> {
    match kind
    case Xmr => Some("pwnda-xmr-" + id)
    case Zph => Some("pwnda-zph-" + id)
    case Zano => Some("pwnda-zano-" + id + ".zan")
    case Xelis => Some("pwnda-xelis-" + id)
    case _ => None
  }

  /** An added wallet comes last and carries what its kind has a use for, and of the rest nothing. */
  lemma AddedWallet(v: VaultV3, spec: NewWalletSpec, now: int, id: string, freshGroup: string)
    ensures var after := AddWalletEntry(v, spec, now, id, freshGroup);
            && |after.wallets| == |v.wallets| + 1 && after.wallets[..|v.wallets|] == v.wallets
            && after.(wallets := v.wallets) == v
            && var e := after.wallets[|v.wallets|];
               && e.id == id && e.name == spec.name && e.kind == spec.kind && e.seed == spec.seed && e.createdAt == now
               && e.groupId == Some(if spec.groupId.Some? then spec.groupId.value else freshGroup)
               && e.derivation == (if e.kind.Bip39? then spec.derivation else None)
               && e.xmrFormat == (if e.kind.Xmr? then spec.xmrFormat else None)
               && e.restoreHeight == (if e.kind.Xmr? || e.kind.Zph? then spec.restoreHeight else None)
               && e.zanoPassphrase == (if e.kind.Zano?
                  && Truthy(spec.zanoPassphrase) then spec.zanoPassphrase else None)
               && e.chain == (if e.kind.PrivateKey? || e.kind.Watch? then spec.chain else None)
               && e.address == (if e.kind.PrivateKey? || e.kind.Watch? then spec.address else None)
               && e.sidecarFile == FileFor(e.kind, id)
  {
  }

  /** There is a slot to fill exactly for a kind with a file of which the primary group has no wallet,
      the vault-wide Zano seed counting as one. */
  lemma SlotExactly(v: VaultV3, kind: Kind, group: string)
    ensures PrimaryGroupSlotFor(v, kind) == Some(group)
       <==> && (kind.Xmr? || kind.Zph? || kind.Zano? || kind.Xelis?)
            && PrimaryGroup(v.wallets) == Some(group)
            && NoneIn(v.wallets, kind, group)
            && !(kind.Zano? && Truthy(v.zanoSeed))
  {
    hide PrimaryGroup;
    if NoneIn(v.wallets, kind, group) {
      NoneFound(v.wallets, kind, group);
    }
  }

  // Xelis.

  /** The first wallet whose words are those of the seed. */
  ghost predicate FirstWithWords(ws: seq<Entry>, i: nat, seed: string) {
    i < |ws| && SameWords(ws[i].seed, seed) && forall j :: 0 <= j < i ==> !SameWords(ws[j].seed, seed)
  }

  lemma DuplicateByPosition(v: VaultV3, seed: string, i: nat)
    requires !Blank(seed) && FirstWithWords(v.wallets, i, seed)
    ensures FindDuplicateSeed(v, seed) == Some(v.wallets[i])
  {
    var ws, p := v.wallets, SameSeed(NormalizeSeed(seed));
    hide NormalizeSeed, SameWords, Blank, Find;
    forall j | 0 <= j < |ws| ensures p(ws[j]) <==> SameWords(ws[j].seed, seed) {
      SameSeedExactly(ws[j].seed, seed);
    }
    SameSeedExactly(seed, seed);
    assert forall w :: w in ws[..i] ==> !p(w);
    assert ws == ws[..i] + ws[i..];
    FindConcat(p, ws[..i], ws[i..]);
    FindHead(p, ws[i..]);
  }

  lemma FindHead(p: Entry -> bool, ws: seq<Entry>)
    requires ws != [] && p(ws[0])
    ensures Find(p, ws) == Some(ws[0])
  {
  }

  lemma NoDuplicate(v: VaultV3, seed: string)
    requires Blank(seed) || forall w :: w in v.wallets ==> !SameWords(w.seed, seed)
    ensures FindDuplicateSeed(v, seed).None?
  {
    hide NormalizeSeed, SameWords, Blank;
    SameSeedExactly(seed, seed);
    forall w | w in v.wallets ensures SameSeed(NormalizeSeed(seed))(w) <==> SameWords(w.seed, seed) {
      SameSeedExactly(w.seed, seed);
    }
  }

  /** With a Xelis wallet in the open context, the same words change nothing and other words are
      refused. */
  lemma XelisBesideOne(v: VaultV3, seed: string, active: Option<string>, now: int, id: string, freshGroup: string,
                       i: nat)
    requires GroupIdForWallet(v, active).Some?
    requires FirstAt(v.wallets, i, Xelis, GroupIdForWallet(v, active).value)
    ensures AddXelisWalletToContext(v, seed, active, now, id, freshGroup)
         == if SameWords(v.wallets[i].seed, seed) then Ok(XelisSaved(v, v.wallets[i], false))
            else Err(OtherXelisSeedHere)
  {
    hide GroupIdForWallet, NormalizeSeed, SameWords;
    FirstByPosition(v.wallets, i, Xelis, GroupIdForWallet(v, active).value);
    SameSeedExactly(v.wallets[i].seed, seed);
  }

  ghost predicate NoXelisOpen(v: VaultV3, active: Option<string>) {
    GroupIdForWallet(v, active).None? || NoneIn(v.wallets, Xelis, GroupIdForWallet(v, active).value)
  }

  /** Without one, words that some wallet has are refused, naming the first such wallet; a blank seed
      counts as nobody's. */
  lemma XelisOfSavedWords(v: VaultV3, seed: string, active: Option<string>, now: int, id: string, freshGroup: string,
                          i: nat)
    requires NoXelisOpen(v, active) && !Blank(seed) && FirstWithWords(v.wallets, i, seed)
    ensures AddXelisWalletToContext(v, seed, active, now, id, freshGroup) == Err(SavedAs(v.wallets[i].name))
  {
    hide GroupIdForWallet, NormalizeSeed, SameWords;
    DuplicateByPosition(v, seed, i);
    if GroupIdForWallet(v, active).Some? {
      NoneFound(v.wallets, Xelis, GroupIdForWallet(v, active).value);
    }
  }

  /** Any other seed is added to the open context, under the context's name, on a file of its own. */
  lemma XelisAdded(v: VaultV3, seed: string, active: Option<string>, now: int, id: string, freshGroup: string)
    requires NoXelisOpen(v, active) && (Blank(seed) || forall w :: w in v.wallets ==> !SameWords(w.seed, seed))
    ensures var r := AddXelisWalletToContext(v, seed, active, now, id, freshGroup);
            && r.Ok? && r.value.created && r.value.v == v.(wallets := v.wallets + [r.value.entry])
            && var e, group := r.value.entry, GroupIdForWallet(v, active);
               && e.kind.Xelis? && e.seed == seed && e.id == id && e.createdAt == now
               && e.groupId == Some(if group.Some? then group.value else freshGroup)
               && e.sidecarFile == Some("pwnda-xelis-" + id)
               && (group.None? ==> e.name == "Xelis wallet")
               && forall c :: c in ListContexts(v) && Some(c.groupId) == group ==> e.name == c.name + " · Xelis"
  {
    hide GroupIdForWallet, NormalizeSeed, SameWords, ListContexts;
    NoDuplicate(v, seed);
    var group := GroupIdForWallet(v, active);
    if group.Some? {
      NoneFound(v.wallets, Xelis, group.value);
    }
    var spec := NewWalletSpec(Xelis, seed, XelisName(v, group), None, None, None, None, None, None, group);
    AddedWallet(v, spec, now, id, freshGroup);
    hide FindDuplicateSeed;
    forall c | c in ListContexts(v) && Some(c.groupId) == group ensures XelisName(v, group) == c.name + " · Xelis" {
      ContextByGroup(v, c);
    }
  }

  lemma ContextByGroup(v: VaultV3, c: Context)
    requires c in ListContexts(v)
    ensures Find(InContextGroup(c.groupId), ListContexts(v)) == Some(c)
  {
    var r := Find(InContextGroup(c.groupId), ListContexts(v));
    assert InContextGroup(c.groupId)(c);
    ContextsAreLedByBip39(v, c);
  }
}
