/** What each call of the store leaves on file, told by the contents of the two keys: which vault
    opens under which password, and what it holds. */
module StoreEffects {
  import opened Wrappers
  import opened Seqs
  import opened Vault
  import opened Contexts
  import opened FlatShape
  import opened MergeOrder
  import opened MergeLaws
  import opened LensLaws
  import opened SavedWallets
  import opened Store
  import opened StoreInterleaving

  /** The wallet on file opens under the password, to a vault in its current shape. */
  predicate Opens(d: Disk, password: string) {
    d.wallet.Some? && d.wallet.value.password == password && d.wallet.value.text.V3Doc?
  }

  function Content(d: Disk): VaultV3
    requires d.wallet.Some? && d.wallet.value.text.V3Doc?
  {
    d.wallet.value.text.vault
  }

  predicate CannotRead(d: Disk, password: string) {
    d.wallet.None? || d.wallet.value.password != password
  }

  /** An older wallet is on file and opens under the password: a flat payload, or bare words. */
  predicate OpensToOlder(d: Disk, password: string, older: Payload) {
    && d.wallet.Some? && d.wallet.value.password == password
    && match d.wallet.value.text
       case Mnemonic(words) => older == Payload(words, None, None, None, None, None, None, None, None, None)
       case FlatDoc(payload) => older == payload
       case V3Doc(_) => false
  }

  function ElsewhereThan(group: string): Entry -> bool {
    (w: Entry) => (if w.groupId.Some? then w.groupId.value else w.id) != group
  }

  // Saving.

  /** A flat save into a vault that opens leaves one that opens under the same password. It holds every
      wallet outside the written group and every Xelis wallet, in their order, and keeps the active
      wallet and the balance cache. */
  lemma SaveKeepsTheRest(d: Disk, payload: Payload, password: string, active: Option<string>, now: int, ids: FreshIds,
                         salt: nat)
    requires Opens(d, password) && UniqueIds(Content(d).wallets) && Fresh(ids, Content(d).wallets)
    ensures var left := Final(d, SaveFlat(payload, password, active, now, ids, salt));
            && Opens(left, password) && left.backup == d.backup
            && var v, after := Content(d), Content(left);
               var others := ElsewhereThan(GroupBefore(Some(v), active, ids));
               && Filter(others, after.wallets) == Filter(others, v.wallets)
               && Filter(OfKind(Xelis), after.wallets) == Filter(OfKind(Xelis), v.wallets)
               && after.lastActive == Some(v.lastActive.GetOr("all")) && after.balanceCache == v.balanceCache
  {
    var v := Content(d);
    var t := TargetOf(Some(v), active, now, ids);
    SavedInto(d, payload, password, active, now, ids, salt);
    hide GroupIdForWallet, Final, Target.Merged;
    assert MergeFlatIntoV3(payload, Some(v), active, now, ids) == MergeAt(payload, t);
    OtherGroupsUntouched(payload, t, ElsewhereThan(t.group));
    XelisCarriedThrough(payload, t);
  }

  lemma SavedInto(d: Disk, payload: Payload, password: string, active: Option<string>, now: int, ids: FreshIds,
                  salt: nat)
    requires Opens(d, password)
    ensures var left := Final(d, SaveFlat(payload, password, active, now, ids, salt));
            && Opens(left, password) && left.backup == d.backup
            && Content(left) == MergeFlatIntoV3(payload, Some(Content(d)), active, now, ids)
  {
    hide MergeFlatIntoV3;
  }

  /** And the payload that was saved is the one read back, unless the save dropped the open wallet
      while another group is primary. */
  lemma SaveIsReadBack(d: Disk, payload: Payload, password: string, active: Option<string>, now: int, ids: FreshIds,
                       salt: nat)
    requires Opens(d, password) && UniqueIds(Content(d).wallets) && Fresh(ids, Content(d).wallets)
    requires var t := TargetOf(Some(Content(d)), active, now, ids);
             DropsOpenWallet(payload, t, active) ==> PrimaryAfter(t) == t.group
    ensures var left := Final(d, SaveFlat(payload, password, active, now, ids, salt));
            && Opens(left, password)
            && ProjectV3ToV2(Content(left), active)
               == NormalPayload(payload).(devFeeAck := payload.devFeeAck.Or(Content(d).devFeeAck))
  {
    SavedInto(d, payload, password, active, now, ids, salt);
    hide MergeFlatIntoV3, ProjectV3ToV2, Final, DropsOpenWallet, NormalPayload, TargetOf;
    PutGet(payload, Some(Content(d)), active, now, ids);
  }

  /** A save that cannot read what is there, for want of a wallet or of the right password, writes the
      migrated shape of the payload alone, and its Zano seed beside the list. */
  lemma SaveWithoutReading(d: Disk, payload: Payload, password: string, active: Option<string>, now: int,
                           ids: FreshIds, salt: nat)
    requires CannotRead(d, password) && Fresh(ids, [])
    ensures var left := Final(d, SaveFlat(payload, password, active, now, ids, salt));
            && Opens(left, password) && left.backup == d.backup
            && Content(left).wallets == MigrateV2ToV3(payload, now, ids).wallets
            && Content(left).lastActive == Some("all") && Content(left).balanceCache.None?
            && ProjectV3ToV2(Content(left), active) == NormalPayload(payload)
  {
    hide GroupIdForWallet, MigrateV2ToV3, ProjectV3ToV2;
    var left := Final(d, SaveFlat(payload, password, active, now, ids, salt));
    assert left == Written(d, MergeFlatIntoV3(payload, None, active, now, ids), password, salt);
    MigratedKinds(payload, now, ids);
    PutGet(payload, None, active, now, ids);
  }

  // Saving over an older wallet.

  /** In a vault with one group every wallet opens that group. */
  lemma OneGroupIsOpen(v: VaultV3, group: string, active: Option<string>)
    requires v.wallets != [] && forall w :: w in v.wallets ==> w.GroupKey() == group
    ensures GroupIdForWallet(v, active) == Some(group)
  {
    hide ListContexts, PrimaryGroup;
    PrimaryIsAGroup(v.wallets);
    OneContext(v, group);
    var c := ContextForWallet(v, active.GetOr("all"));
    assert c.Some? && c.value in ListContexts(v);
  }

  lemma OneContext(v: VaultV3, group: string)
    requires v.wallets != [] && forall w :: w in v.wallets ==> w.GroupKey() == group
    ensures ListContexts(v) != [] && forall c :: c in ListContexts(v) ==> c.groupId == group
  {
    hide ListContexts, PrimaryGroup, MakeContext;
    PrimaryContextFirst(v);
    ContextsByKey(v);
    forall c | c in ListContexts(v) ensures c.groupId == group {
      var w := WalletOfKey(v.wallets, c.groupId);
    }
  }

  /** A flat save over an older wallet migrates it on the way: the older ciphertext is on file as the
      backup, if none was, and the new vault has one group, which reads back as what was saved. */
  lemma SaveOverOlder(d: Disk, older: Payload, payload: Payload, password: string, active: Option<string>, now: int,
                      ids: FreshIds, salt: nat, open: Option<string>)
    requires OpensToOlder(d, password, older) && Fresh(ids, [])
    ensures var left := Final(d, SaveFlat(payload, password, active, now, ids, salt));
            && Opens(left, password) && left.backup == d.backup.Or(d.wallet)
            && (forall w :: w in Content(left).wallets ==> w.groupId == Some(ids.group))
            && ProjectV3ToV2(Content(left), open)
               == NormalPayload(payload).(devFeeAck := payload.devFeeAck.Or(older.devFeeAck))
  {
    var v := MigrateV2ToV3(older, now, ids);
    OlderIsSaved(d, older, payload, password, active, now, ids, salt);
    MigratedGroup(older, now, ids);
    OneGroupIsOpen(v, ids.group, active);
    assert v.devFeeAck == older.devFeeAck;
    MigratedFlat(older, now, ids);
    hide MigrateV2ToV3, Final, GroupIdForWallet, NormalPayload;
    var t := TargetOf(Some(v), active, now, ids);
    var after := MergeFlatIntoV3(payload, Some(v), active, now, ids);
    MergedInOneGroup(payload, t, v);
    OneGroupIsOpen(after, ids.group, open);
    PutGetGroup(payload, t);
  }

  lemma OlderIsSaved(d: Disk, older: Payload, payload: Payload, password: string, active: Option<string>, now: int,
                     ids: FreshIds, salt: nat)
    requires OpensToOlder(d, password, older)
    ensures var left := Final(d, SaveFlat(payload, password, active, now, ids, salt));
            && Opens(left, password) && left.backup == d.backup.Or(d.wallet)
            && Content(left) == MergeFlatIntoV3(payload, Some(MigrateV2ToV3(older, now, ids)), active, now, ids)
  {
    hide MergeFlatIntoV3, MigrateV2ToV3;
  }

  lemma MigratedFlat(older: Payload, now: int, ids: FreshIds)
    ensures forall w :: w in MigrateV2ToV3(older, now, ids).wallets ==> w.kind.Flat()
  {
  }

  lemma MergedInOneGroup(payload: Payload, t: Target, v: VaultV3)
    requires t.existing == Some(v) && forall w :: w in v.wallets ==> w.GroupKey() == t.group && w.kind.Flat()
    ensures t.Merged(payload) != [] && forall w :: w in t.Merged(payload) ==> w.groupId == Some(t.group)
  {
    RebuiltShape(payload, t, Bip39);
    assert t.Rebuilt(payload, Bip39).Some?;
    hide Target.Merged, Target.Rebuilt;
    InMerged(payload, t, t.Rebuilt(payload, Bip39).value);
    forall w | w in t.Merged(payload) ensures w.groupId == Some(t.group) {
      InMerged(payload, t, w);
      RebuiltShape(payload, t, w.kind);
    }
  }

  // Loading.

  /** A load that cannot read leaves everything; so does one that finds the current shape, and that one
      answers with what is there. */
  lemma LoadWithoutMigrating(d: Disk, password: string, now: int, ids: FreshIds, salt: nat)
    requires CannotRead(d, password) || Opens(d, password)
    ensures Final(d, Load(password, now, ids, salt)) == d
    ensures var raw := ReadRaw(d, password, now, ids);
            if Opens(d, password) then raw.Ok? && raw.value.vault == Content(d)
            else raw == Err(if d.wallet.None? then NoWallet else WrongPassword)
  {
  }

  /** A load that finds an older wallet leaves its ciphertext as the backup, if none was, and in its
      place a vault that reads back, whichever wallet is open, as the older payload did; it answers with
      that vault. */
  lemma LoadMigrates(d: Disk, older: Payload, password: string, now: int, ids: FreshIds, salt: nat,
                     open: Option<string>)
    requires OpensToOlder(d, password, older) && Fresh(ids, [])
    ensures var left, raw := Final(d, Load(password, now, ids, salt)), ReadRaw(d, password, now, ids);
            && Opens(left, password) && left.backup == d.backup.Or(d.wallet)
            && ProjectV3ToV2(Content(left), open) == NormalPayload(older)
            && raw.Ok? && raw.value.vault == Content(left)
  {
    hide MigrateV2ToV3, ProjectV3ToV2;
    ProjectMigrate(older, open, now, ids);
  }

  /** Saving the whole vault stores exactly it; deleting leaves neither key. */
  lemma SaveV3AndDelete(d: Disk, v: VaultV3, password: string, salt: nat)
    ensures var left := Final(d, SaveV3(v, password, salt));
            Opens(left, password) && Content(left) == v && left.backup == d.backup
    ensures Final(d, Delete) == Disk(None, None)
  {
  }

  // One call alone.

  const FOUR_STEPS: seq<Event> := [Proceed(0), Proceed(0), Proceed(0), Proceed(0)]

  /** A call that nothing overlaps, taken one awaited operation at a time, passes through exactly the
      contents of the call as a whole, ends on the same one, and is finished. */
  lemma AloneIsTheWholeCall(d: Disk, call: Call)
    requires !call.Delete?
    ensures var w := Run(World([d], [Started(call)]), FOUR_STEPS);
            && w.tasks == [Finished] && w.history != [] && w.history[|w.history| - 1] == Final(d, call)
            && forall x :: x in w.history <==> x == d || x in Points(d, call)
  {
    FourSteps(d, Started(call));
    AloneSteps(d, call);
  }

  function Steps(d: Disk, t: Task, n: nat): (Disk, Task) {
    if n == 0 then (d, t) else var before := Steps(d, t, n - 1); Advance(before.0, before.1)
  }

  lemma NextAlone(history: seq<Disk>, d: Disk, t: Task, n: nat)
    requires history != [] && history[|history| - 1] == Steps(d, t, n).0
    ensures Next(World(history, [Steps(d, t, n).1]), Proceed(0))
         == World(history + [Steps(d, t, n + 1).0], [Steps(d, t, n + 1).1])
  {
    hide Advance;
    var before, after := Steps(d, t, n), Steps(d, t, n + 1);
    assert after == Advance(before.0, before.1);
    hide Steps;
    assert [before.1][0 := after.1] == [after.1];
  }

  lemma FourSteps(d: Disk, t: Task)
    ensures Run(World([d], [t]), FOUR_STEPS)
         == World([d, Steps(d, t, 1).0, Steps(d, t, 2).0, Steps(d, t, 3).0, Steps(d, t, 4).0], [Steps(d, t, 4).1])
  {
    var e, h0 := Proceed(0), [d];
    var h1 := h0 + [Steps(d, t, 1).0];
    var h2 := h1 + [Steps(d, t, 2).0];
    var h3 := h2 + [Steps(d, t, 3).0];
    assert Steps(d, t, 0) == (d, t);
    hide Advance, Next, Steps;
    NextAlone(h0, d, t, 0);
    NextAlone(h1, d, t, 1);
    NextAlone(h2, d, t, 2);
    NextAlone(h3, d, t, 3);
    RunCons(World(h0, [t]), e, [e, e, e]);
    RunCons(World(h1, [Steps(d, t, 1).1]), e, [e, e]);
    RunCons(World(h2, [Steps(d, t, 2).1]), e, [e]);
    RunCons(World(h3, [Steps(d, t, 3).1]), e, []);
  }

  lemma AloneSteps(d: Disk, call: Call)
    requires !call.Delete?
    ensures var t := Started(call);
            && Steps(d, t, 4).1 == Finished && Steps(d, t, 4).0 == Final(d, call)
            && forall x :: x in [d, Steps(d, t, 1).0, Steps(d, t, 2).0, Steps(d, t, 3).0, Steps(d, t, 4).0]
                           <==> x == d || x in Points(d, call)
  {
    hide MergeFlatIntoV3, Plain.Normalized;
    var t := Started(call);
    var s1 := Advance(d, t);
    var s2 := Advance(s1.0, s1.1);
    var s3 := Advance(s2.0, s2.1);
    var s4 := Advance(s3.0, s3.1);
    assert Steps(d, t, 1) == s1;
    assert Steps(d, t, 2) == s2;
    assert Steps(d, t, 3) == s3;
    assert Steps(d, t, 4) == s4;
    hide Steps;
  }
}
